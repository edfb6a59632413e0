/**
 * The durable staging -> public Testnet -> Mainnet selection of `ActivationFeed`: its constructor,
 * `poll` and `select`, over runs with raised polls, crashes and restarts.
 */
module Selector {
  import opened Prelude
  import opened Quorum

  datatype SelectionState = Unarmed | Armed | Selected

  /** A published generation with the status it shows. Only available ones are remembered for later fallback. */
  datatype Envelope = Envelope(profile: Profile, magic: string, available: bool, status: Option<nat>)

  datatype State = State(selection: SelectionState, selected: Profile, passes: nat, mainnetPasses: nat,
                         evidence: Option<Evidence>, last: Option<Envelope>)

  datatype MainnetConfig = MainnetConfig(armed: bool, reference: bool)

  datatype Config = Config(armed: bool, mainnet: Option<MainnetConfig>, magics: map<Profile, string>) {
    function Magic(profile: Profile): string { if profile in magics then magics[profile] else "" }
    predicate MainnetArmed() { mainnet.Some? && mainnet.value.armed }
  }

  /** The selection file, and the two files that survive its loss. */
  datatype Disk = Disk(state: Option<State>, lockFile: bool, marker: bool)

  function Rank(profile: Profile): nat
  {
    match profile case Staging => 0 case PublicTestnet => 1 case Mainnet => 2
  }

  // ---- the constructor ----

  datatype OpenError = StateMissing | InvalidSelection | MainnetMissing | ForeignObservation

  function Resting(config: Config): SelectionState { if config.armed then Armed else Unarmed }

  predicate Owns(config: Config, s: State)
  {
    s.last.Some? ==> s.last.value.profile == s.selected && s.last.value.magic == config.Magic(s.selected)
  }

  /** The state a process starts from, or the reason it refuses to start. */
  function Open(config: Config, disk: Disk): Result<State, OpenError>
  {
    if disk.state.None? && (disk.marker || disk.lockFile) then Err(StateMissing)
    else
      var s := if disk.state.Some? then disk.state.value else State(Resting(config), Staging, 0, 0, None, None);
      if !s.selected.Staging? && s.selection != Selected then Err(InvalidSelection)
      else if s.selected.Mainnet? && config.mainnet.None? then Err(MainnetMissing)
      else if !Owns(config, s) then Err(ForeignObservation)
      else Ok(s.(selection := if s.selected.Staging? then Resting(config) else s.selection,
                 passes := 0, mainnetPasses := 0))
  }

  // ---- poll ----

  /** How far a poll gets before an exception escapes it. */
  datatype Reach = NoObservation | NoMainnetObservation | NoSave | Completed

  /** What a poll observes: the agreements, the Mainnet status with its complete table, and the status to show. */
  datatype Input = Input(agreement: Option<Evidence>, mainnetAgreement: Option<Evidence>, mainnetStatus: Option<nat>,
                         status: Option<nat>, reach: Reach)

  function Select(s: State, profile: Profile, evidence: Option<Evidence>): State
  {
    s.(selected := profile, selection := Selected, evidence := evidence, last := None)
  }

  predicate PublicDue(config: Config, s: State) { s.selected.Staging? && config.armed }

  predicate MainnetDue(config: Config, s: State) { s.selected.PublicTestnet? && config.MainnetArmed() }

  predicate MainnetReady(config: Config, input: Input)
  {
    input.mainnetAgreement.Some? && config.mainnet.Some? && config.mainnet.value.reference && input.mainnetStatus.Some?
  }

  function EvaluatePublic(config: Config, s: State, input: Input): State
  {
    if !PublicDue(config, s) then s
    else
      var counted := s.(selection := Armed, passes := if input.agreement.Some? then s.passes + 1 else 0);
      if counted.passes >= 3 then Select(counted, PublicTestnet, input.agreement) else counted
  }

  function EvaluateMainnet(config: Config, s: State, input: Input): State
  {
    if !MainnetDue(config, s) then s
    else
      var counted := s.(mainnetPasses := if MainnetReady(config, input) then s.mainnetPasses + 1 else 0);
      if counted.mainnetPasses >= 3 then Select(counted, Mainnet, input.mainnetAgreement) else counted
  }

  /** The generation to publish: observed now, the remembered one marked unavailable, or an empty one. */
  function Payload(config: Config, s: State, observed: Option<nat>): Envelope
  {
    if observed.Some? then Envelope(s.selected, config.Magic(s.selected), true, observed)
    else if !s.selected.Staging? && s.last.Some? then s.last.value.(available := false)
    else Envelope(s.selected, config.Magic(s.selected), false, None)
  }

  function Remember(s: State, payload: Envelope): State
  {
    if !s.selected.Staging? && payload.available then s.(last := Some(payload)) else s
  }

  /** The in-memory state after a poll, however far it got. */
  function PollState(config: Config, s: State, input: Input): State
  {
    if input.reach.NoObservation? then s
    else
      var s1 := EvaluatePublic(config, s, input);
      if input.reach.NoMainnetObservation? && MainnetDue(config, s1) then s1
      else
        var s2 := EvaluateMainnet(config, s1, input);
        Remember(s2, PollPayload(config, s, input))
  }

  function PollPayload(config: Config, s: State, input: Input): Envelope
  {
    var s1 := EvaluatePublic(config, s, input);
    var s2 := EvaluateMainnet(config, s1, input);
    // A Mainnet switch publishes the observation it was based on.
    Payload(config, s2, if s2.selected != s1.selected then input.mainnetStatus else input.status)
  }

  /** The evaluations a poll makes, each with the evidence it passes on, and the selection it may take. */
  datatype Event =
    | Started
    | Public(found: Option<Evidence>)
    | Main(found: Option<Evidence>)
    | Chose(profile: Profile, evidence: Option<Evidence>)

  function PublicEvents(config: Config, s: State, input: Input): seq<Event>
  {
    if !PublicDue(config, s) then []
    else
      var s' := EvaluatePublic(config, s, input);
      [Public(input.agreement)] + if s'.selected != s.selected then [Chose(PublicTestnet, s'.evidence)] else []
  }

  /** A Mainnet evaluation passes on its agreement only when the whole switch is ready. */
  function MainEvent(config: Config, input: Input): Event
  {
    Main(if MainnetReady(config, input) then input.mainnetAgreement else None)
  }

  function MainnetEvents(config: Config, s: State, input: Input): seq<Event>
  {
    if !MainnetDue(config, s) then []
    else
      var s' := EvaluateMainnet(config, s, input);
      [MainEvent(config, input)] + if s'.selected != s.selected then [Chose(Mainnet, s'.evidence)] else []
  }

  function PollEvents(config: Config, s: State, input: Input): seq<Event>
  {
    if input.reach.NoObservation? then []
    else
      var s1 := EvaluatePublic(config, s, input);
      PublicEvents(config, s, input)
      + if input.reach.NoMainnetObservation? then [] else MainnetEvents(config, s1, input)
  }

  // ---- the imperative feed ----

  class Feed {
    const config: Config
    var state: State
    var payload: Option<Envelope>
    var saved: State

    /**
     * Adopt a validated state and persist it. The selection, its evidence and the remembered generation
     * survive the restart and the evaluation streaks do not. What is offered belongs to the selected
     * profile, and a crash right after the save changes nothing.
     */
    constructor (config: Config, disk: Disk)
      requires Open(config, disk).Ok?
      ensures this.config == config && saved == state && state.passes == 0 && state.mainnetPasses == 0
      ensures match disk.state
        case Some(s) =>
          state.selected == s.selected && state.evidence == s.evidence && state.last == s.last
        case None =>
          !disk.lockFile && !disk.marker && state.selected == Staging && state.evidence == None && state.last == None
      ensures state.selection ==
        if !state.selected.Staging? then Selected else if config.armed then Armed else Unarmed
      ensures payload.Some? ==>
        payload.value.profile == state.selected && payload.value.magic == config.Magic(state.selected)
      ensures payload == state.last
      ensures forall lockFile, marker :: Open(config, Disk(Some(saved), lockFile, marker)) == Ok(state)
    {
      this.config := config;
      var s := Open(config, disk).value;
      state, saved, payload := s, s, s.last;
    }

    method Poll(input: Input)
      modifies this
      ensures state == PollState(config, old(state), input)
      ensures input.reach.Completed? ==>
        saved == state && payload == Some(PollPayload(config, old(state), input))
      ensures !input.reach.Completed? ==> saved == old(saved) && payload == old(payload)
    {
      if input.reach.NoObservation? { return; }
      if state.selected.Staging? && config.armed {
        state := state.(selection := Armed);
        state := state.(passes := if input.agreement.Some? then state.passes + 1 else 0);
        if state.passes >= 3 { state := Select(state, PublicTestnet, input.agreement); }
      }
      var prepared := false;
      if state.selected.PublicTestnet? && config.MainnetArmed() {
        if input.reach.NoMainnetObservation? { return; }
        var ready := input.mainnetAgreement.Some? && config.mainnet.value.reference && input.mainnetStatus.Some?;
        state := state.(mainnetPasses := if ready then state.mainnetPasses + 1 else 0);
        if state.mainnetPasses >= 3 {
          state := Select(state, Mainnet, input.mainnetAgreement);
          prepared := true;
        }
      }
      var next := Payload(config, state, if prepared then input.mainnetStatus else input.status);
      if !state.selected.Staging? && next.available { state := state.(last := Some(next)); }
      if !input.reach.Completed? { return; }
      saved := state;
      payload := Some(next);
    }
  }

  // ---- a poll on what it observed ----

  /** The observations of one evaluation and the answers its sources and its clock give. */
  datatype Fleet = Fleet(nodes: seq<Observation>, reference: Observation, activation: int, now: int, read: Reads,
                         clock: nat -> int)

  /** The evidence is sound for what the evaluation observed. */
  ghost predicate Certified(profile: Profile, fleet: Fleet, evidence: Option<Evidence>)
  {
    evidence.Some? && exists combo, tick: nat ::
      Sound(profile, fleet.nodes, fleet.reference, fleet.activation, fleet.now, fleet.read, fleet.clock, tick,
            evidence.value, combo)
  }

  lemma SelectedOnInput(config: Config, s: State, input: Input)
    ensures var s' := PollState(config, s, input);
      && (s.selected.Staging? && s'.selected.PublicTestnet? ==> s'.evidence == input.agreement && s'.evidence.Some?)
      && (!s.selected.Mainnet? && s'.selected.Mainnet? ==>
            s'.evidence == input.mainnetAgreement && s'.evidence.Some?)
  {
  }

  /**
   * Whatever a poll selects, it selects on evidence that is sound for what the same poll observed. The
   * poll does not look at an agreement that is not due.
   */
  method PollFleet(feed: Feed, testnet: Fleet, mainnet: Fleet, mainnetStatus: Option<nat>, status: Option<nat>,
                   reach: Reach)
    modifies feed
    ensures old(feed.state.selected).Staging? && feed.state.selected.PublicTestnet? ==>
      Certified(PublicTestnet, testnet, feed.state.evidence)
    ensures !old(feed.state.selected).Mainnet? && feed.state.selected.Mainnet? ==>
      Certified(Mainnet, mainnet, feed.state.evidence)
  {
    var agreement, _ := Agreement(PublicTestnet, testnet.nodes, testnet.reference, testnet.activation, testnet.now,
                                  testnet.read, testnet.clock);
    var mainnetAgreement, _ := Agreement(Mainnet, mainnet.nodes, mainnet.reference, mainnet.activation, mainnet.now,
                                         mainnet.read, mainnet.clock);
    var input := Input(agreement, mainnetAgreement, mainnetStatus, status, reach);
    SelectedOnInput(feed.config, feed.state, input);
    feed.Poll(input);
  }

  // ---- what one process selects, on its inputs alone ----

  /** The state of a process after these polls. */
  function After(config: Config, s: State, inputs: seq<Input>): State
  {
    if inputs == [] then s
    else PollState(config, After(config, s, inputs[..|inputs| - 1]), inputs[|inputs| - 1])
  }

  /** Evaluations in order: none made, or made with this outcome. */
  type Verdicts = seq<Option<bool>>

  /** Evaluation i passes, and so did the two before it, with no failing one among them. */
  ghost predicate Third(v: Verdicts, i: nat)
  {
    && i < |v| && v[i] == Some(true)
    && exists a, b :: 0 <= a < b < i && v[a] == Some(true) && v[b] == Some(true) && NoneFails(v, a, i)
  }

  ghost predicate NoneFails(v: Verdicts, a: nat, i: nat)
    requires i <= |v|
  {
    forall k :: a < k < i ==> v[k] != Some(false)
  }

  /** Passing evaluations since the latest failing one. */
  function Passing(v: Verdicts): nat
  {
    if v == [] then 0
    else
      var before := Passing(v[..|v| - 1]);
      match v[|v| - 1] case None => before case Some(pass) => if pass then before + 1 else 0
  }

  lemma {:induction false} PassingGrows(v: Verdicts, a: nat, i: nat)
    requires a < i <= |v| && v[a] == Some(true) && NoneFails(v, a, i)
    ensures Passing(v[..i]) >= Passing(v[..a]) + 1
  {
    assert v[..i][..i - 1] == v[..i - 1];
    if a < i - 1 { PassingGrows(v, a, i - 1); }
  }

  lemma {:induction false} LatestPass(v: Verdicts, i: nat) returns (a: nat)
    requires i <= |v| && Passing(v[..i]) > 0
    ensures a < i && v[a] == Some(true) && NoneFails(v, a, i) && Passing(v[..i]) == Passing(v[..a]) + 1
  {
    assert v[..i][..i - 1] == v[..i - 1];
    if v[i - 1].None? { a := LatestPass(v, i - 1); } else { a := i - 1; }
  }

  lemma ThirdExactly(v: Verdicts, i: nat)
    requires i < |v|
    ensures Third(v, i) <==> v[i] == Some(true) && Passing(v[..i + 1]) >= 3
  {
    assert v[..i + 1][..i] == v[..i];
    if v[i] == Some(true) && Passing(v[..i + 1]) >= 3 {
      var b := LatestPass(v, i);
      var a := LatestPass(v, b);
      assert NoneFails(v, a, i);
    }
    if Third(v, i) {
      var a, b :| 0 <= a < b < i && v[a] == Some(true) && v[b] == Some(true) && NoneFails(v, a, i);
      PassingGrows(v, a, b);
      PassingGrows(v, b, i);
    }
  }

  /** A poll evaluates the public testnet when it observed the fleet, and passes on an agreement. */
  function PublicVerdicts(inputs: seq<Input>): (v: Verdicts)
    ensures |v| == |inputs|
  {
    seq(|inputs|, i requires 0 <= i < |inputs| =>
      if inputs[i].reach.NoObservation? then None else Some(inputs[i].agreement.Some?))
  }

  lemma VerdictsInit(inputs: seq<Input>, i: nat)
    requires i <= |inputs|
    ensures PublicVerdicts(inputs)[..i] == PublicVerdicts(inputs[..i])
  {
  }

  lemma {:induction false} PublicCounts(config: Config, s: State, inputs: seq<Input>)
    requires s.selected.Staging? && s.passes == 0
    ensures var s' := After(config, s, inputs);
      s'.selected.Staging? ==>
        && (config.armed ==> s'.passes == Passing(PublicVerdicts(inputs)) < 3)
        && (forall n :: 0 <= n <= |inputs| ==> After(config, s, inputs[..n]).selected.Staging?)
  {
    if inputs == [] {
      assert inputs[..0] == inputs;
    } else {
      var init := inputs[..|inputs| - 1];
      PublicCounts(config, s, init);
      VerdictsInit(inputs, |init|);
      if After(config, s, inputs).selected.Staging? {
        forall n | 0 <= n <= |inputs| ensures After(config, s, inputs[..n]).selected.Staging? {
          if n < |inputs| { assert init[..n] == inputs[..n]; } else { assert inputs[..n] == inputs; }
        }
      }
    }
  }

  /**
   * A process that starts on staging leaves it exactly with the poll that makes the third passing
   * evaluation in a row, provided that the public testnet is armed.
   */
  lemma PublicExactly(config: Config, s: State, inputs: seq<Input>, i: nat)
    requires s.selected.Staging? && s.passes == 0 && i < |inputs|
    requires After(config, s, inputs[..i]).selected.Staging?
    ensures !After(config, s, inputs[..i + 1]).selected.Staging? <==>
      config.armed && Third(PublicVerdicts(inputs), i)
  {
    PublicCounts(config, s, inputs[..i]);
    VerdictsInit(inputs, i);
    assert inputs[..i + 1][..i] == inputs[..i];
    var v := PublicVerdicts(inputs);
    assert v[..i + 1][..i] == v[..i];
    ThirdExactly(v, i);
  }

  /**
   * A poll evaluates Mainnet when it is past staging and observed both fleets. It passes when the Mainnet
   * fleet agrees, its reference parameters are configured, and its status has the complete parameter table.
   */
  function MainnetVerdict(config: Config, after: State, input: Input): Option<bool>
  {
    if input.reach.NoObservation? || input.reach.NoMainnetObservation? || after.selected.Staging? then None
    else Some(input.mainnetAgreement.Some? && config.mainnet.Some? && config.mainnet.value.reference &&
              input.mainnetStatus.Some?)
  }

  function MainnetVerdicts(config: Config, s: State, inputs: seq<Input>): (v: Verdicts)
    ensures |v| == |inputs|
  {
    if inputs == [] then []
    else
      MainnetVerdicts(config, s, inputs[..|inputs| - 1])
      + [MainnetVerdict(config, After(config, s, inputs), inputs[|inputs| - 1])]
  }

  lemma {:induction false} MainnetVerdictsInit(config: Config, s: State, inputs: seq<Input>, i: nat)
    requires i <= |inputs|
    ensures MainnetVerdicts(config, s, inputs)[..i] == MainnetVerdicts(config, s, inputs[..i])
  {
    if i == |inputs| {
      assert inputs[..i] == inputs;
    } else {
      var init := inputs[..|inputs| - 1];
      MainnetVerdictsInit(config, s, init, i);
      assert init[..i] == inputs[..i];
    }
  }

  predicate MainnetArmedIn(config: Config) { config.mainnet.Some? && config.mainnet.value.armed }

  lemma MainnetPoll(config: Config, s: State, input: Input)
    requires !s.selected.Mainnet? && s.mainnetPasses < 3
    ensures var s' := PollState(config, s, input);
      var v := MainnetVerdict(config, s', input);
      && (MainnetArmedIn(config) ==>
            s'.mainnetPasses == if v.None? then s.mainnetPasses else if v.value then s.mainnetPasses + 1 else 0)
      && (s'.selected.Mainnet? <==> MainnetArmedIn(config) && v == Some(true) && s'.mainnetPasses >= 3)
  {
  }

  lemma {:induction false} MainnetCounts(config: Config, s: State, inputs: seq<Input>)
    requires !s.selected.Mainnet? && s.mainnetPasses == 0
    ensures var s' := After(config, s, inputs);
      !s'.selected.Mainnet? ==>
        && (MainnetArmedIn(config) ==> s'.mainnetPasses == Passing(MainnetVerdicts(config, s, inputs)))
        && s'.mainnetPasses < 3
  {
    if inputs != [] {
      var init := inputs[..|inputs| - 1];
      var v := MainnetVerdicts(config, s, inputs);
      MainnetCounts(config, s, init);
      assert v[..|init|] == MainnetVerdicts(config, s, init);
      if !After(config, s, init).selected.Mainnet? { MainnetPoll(config, After(config, s, init), inputs[|init|]); }
    }
  }

  /**
   * A process selects Mainnet exactly with the poll that makes the third passing Mainnet evaluation in a
   * row, provided that Mainnet is armed.
   */
  lemma MainnetExactly(config: Config, s: State, inputs: seq<Input>, i: nat)
    requires !s.selected.Mainnet? && s.mainnetPasses == 0 && i < |inputs|
    requires !After(config, s, inputs[..i]).selected.Mainnet?
    ensures After(config, s, inputs[..i + 1]).selected.Mainnet? <==>
      MainnetArmedIn(config) && Third(MainnetVerdicts(config, s, inputs), i)
  {
    var v, next := MainnetVerdicts(config, s, inputs), inputs[..i + 1];
    assert next[..i] == inputs[..i];
    MainnetCounts(config, s, inputs[..i]);
    MainnetVerdictsInit(config, s, inputs, i);
    MainnetVerdictsInit(config, s, inputs, i + 1);
    assert v[..i + 1][..i] == v[..i] && v[i] == MainnetVerdict(config, After(config, s, next), inputs[i]);
    MainnetPoll(config, After(config, s, inputs[..i]), inputs[i]);
    ThirdExactly(v, i);
  }

  /**
   * What a completed poll publishes and remembers. A generation is available exactly when its status was
   * observed or the poll switched to Mainnet, whose status is the observation it switched on. Otherwise the
   * remembered generation is shown as unavailable, or an empty one when the network has none. Only
   * available generations of a selected network are remembered, and a switch forgets the one before it.
   */
  lemma PublishedExactly(config: Config, s: State, input: Input)
    requires input.reach.Completed? && Owns(config, s)
    ensures var s', shown := PollState(config, s, input), PollPayload(config, s, input);
      var switched := !s.selected.Mainnet? && s'.selected.Mainnet?;
      var observed := if switched then input.mainnetStatus else input.status;
      var magic := if s'.selected in config.magics then config.magics[s'.selected] else "";
      && (switched ==> observed.Some?)
      && (shown ==
            if observed.Some? then Envelope(s'.selected, magic, true, observed)
            else if !s'.selected.Staging? && s'.selected == s.selected && s.last.Some? then
              Envelope(s'.selected, magic, false, s.last.value.status)
            else Envelope(s'.selected, magic, false, None))
      && (s'.last ==
            if observed.Some? && !s'.selected.Staging? then Some(shown)
            else if s'.selected != s.selected then None
            else s.last)
  {
  }

  // ---- whole runs ----

  /** How far a start gets: the lock file, the saved state, or a running process. */
  datatype Progress = Locked | Saved | Running

  datatype Step = Start(config: Config, progress: Progress) | Poll(input: Input) | Crash

  datatype Process = Process(config: Config, state: State)

  datatype World = World(disk: Disk, process: Option<Process>, writer: Option<Config>,
                         trace: seq<Event>, published: seq<Envelope>)

  function Next(w: World, step: Step): World
  {
    match step
    case Crash => w.(process := None)
    case Start(config, progress) =>
      if w.process.Some? then w  // the process lock admits one selector at a time
      else
        var adopted := Open(config, w.disk);
        var locked := w.(disk := w.disk.(lockFile := true));
        if adopted.Err? || progress.Locked? then locked
        else
          var saved := locked.(disk := locked.disk.(state := Some(adopted.value)), writer := Some(config));
          if progress.Saved? then saved
          else saved.(disk := saved.disk.(marker := true), process := Some(Process(config, adopted.value)),
                      trace := w.trace + [Started],
                      published := w.published + AsSeq(adopted.value.last))
    case Poll(input) =>
      if w.process.None? then w
      else
        var config, s := w.process.value.config, w.process.value.state;
        var s' := PollState(config, s, input);
        var polled := w.(process := Some(Process(config, s')), trace := w.trace + PollEvents(config, s, input));
        if !input.reach.Completed? then polled
        else polled.(disk := polled.disk.(state := Some(s')), writer := Some(config),
                     published := w.published + [PollPayload(config, s, input)])
  }

  function AsSeq<T>(o: Option<T>): seq<T> { if o.Some? then [o.value] else [] }

  function Run(disk: Disk, steps: seq<Step>): World
  {
    if steps == [] then World(disk, None, None, [], [])
    else Next(Run(disk, steps[..|steps| - 1]), steps[|steps| - 1])
  }

  function DurableRank(disk: Disk): nat { if disk.state.Some? then Rank(disk.state.value.selected) else 0 }

  /** A start that gets through saves the adopted state, leaves its marker and offers the remembered generation. */
  lemma StartsExactly(w: World, config: Config, progress: Progress)
    requires w.process.None?
    ensures var next := Next(w, Start(config, progress));
      var adopted := Open(config, w.disk);
      if adopted.Err? || progress.Locked? then next == w.(disk := Disk(w.disk.state, true, w.disk.marker))
      else
        && next.disk == Disk(Some(adopted.value), true, w.disk.marker || progress.Running?)
        && next.writer == Some(config)
        && (next.process == if progress.Running? then Some(Process(config, adopted.value)) else None)
        && (next.published ==
              if progress.Running? && adopted.value.last.Some? then w.published + [adopted.value.last.value]
              else w.published)
  {
  }

  /** A completed poll is saved and published; one that raises leaves disk and offer as they were. */
  lemma PollsExactly(w: World, input: Input)
    requires w.process.Some?
    ensures var next, config, s := Next(w, Poll(input)), w.process.value.config, w.process.value.state;
      && next.process == Some(Process(config, PollState(config, s, input)))
      && (input.reach.Completed? ==>
            && next.disk == w.disk.(state := Some(PollState(config, s, input)))
            && next.published == w.published + [PollPayload(config, s, input)])
      && (!input.reach.Completed? ==> next.disk == w.disk && next.published == w.published)
  {
  }

  // ---- what every state keeps ----

  /** A state its own constructor accepts under `config`. */
  predicate Acceptable(config: Config, s: State)
  {
    && (!s.selected.Staging? ==> s.selection == Selected)
    && (s.selected.Mainnet? ==> config.mainnet.Some?)
    && Owns(config, s)
  }

  lemma AcceptableOpens(config: Config, disk: Disk)
    requires disk.state.Some?
    ensures Acceptable(config, disk.state.value) <==> Open(config, disk).Ok?
  {
  }

  /** Consecutive passing evaluations at the end of a trace, broken by a failing one or a start. */
  function PublicStreak(trace: seq<Event>): nat
  {
    if trace == [] then 0
    else
      var init := trace[..|trace| - 1];
      match trace[|trace| - 1]
      case Started => 0
      case Public(found) => if found.Some? then PublicStreak(init) + 1 else 0
      case _ => PublicStreak(init)
  }

  function MainnetStreak(trace: seq<Event>): nat
  {
    if trace == [] then 0
    else
      var init := trace[..|trace| - 1];
      match trace[|trace| - 1]
      case Started => 0
      case Main(found) => if found.Some? then MainnetStreak(init) + 1 else 0
      case _ => MainnetStreak(init)
  }

  /** The selection follows exactly three passing evaluations of one process, on the evidence of the third. */
  ghost predicate EarnedBy(before: seq<Event>, e: Event)
  {
    e.Chose? ==>
      && before != [] && e.evidence.Some?
      && match e.profile
         case Staging => false
         case PublicTestnet => PublicStreak(before) == 3 && before[|before| - 1] == Public(e.evidence)
         case Mainnet => MainnetStreak(before) == 3 && before[|before| - 1] == Main(e.evidence)
  }

  ghost predicate Earned(trace: seq<Event>)
  {
    forall i :: 0 <= i < |trace| ==> EarnedBy(trace[..i], trace[i])
  }

  lemma {:induction false} EarnedAppend(trace: seq<Event>, e: Event)
    requires Earned(trace) && EarnedBy(trace, e)
    ensures Earned(trace + [e])
  {
    var all := trace + [e];
    forall i | 0 <= i < |all| ensures EarnedBy(all[..i], all[i]) {
      if i < |trace| {
        assert all[..i] == trace[..i] && EarnedBy(trace[..i], trace[i]);
      } else {
        assert all[..i] == trace;
      }
    }
  }

  /** A running process: acceptable, and its counters are the streaks of the evaluations it made. */
  ghost predicate Tracks(config: Config, s: State, trace: seq<Event>)
  {
    && Acceptable(config, s) && Earned(trace)
    && s.passes == PublicStreak(trace) && s.mainnetPasses == MainnetStreak(trace)
    && (s.selected.Staging? ==> s.passes < 3)
    && (!s.selected.Mainnet? ==> s.mainnetPasses < 3)
  }

  lemma {:induction false} PublicTracks(config: Config, s: State, input: Input, trace: seq<Event>)
    requires Tracks(config, s, trace)
    ensures Tracks(config, EvaluatePublic(config, s, input), trace + PublicEvents(config, s, input))
    ensures Rank(EvaluatePublic(config, s, input).selected) >= Rank(s.selected)
  {
    var events := PublicEvents(config, s, input);
    if events == [] {
      assert trace + events == trace;
    } else {
      var e, c := Public(input.agreement), Chose(PublicTestnet, EvaluatePublic(config, s, input).evidence);
      EarnedAppend(trace, e);
      if |events| == 2 {
        EarnedAppend(trace + [e], c);
        assert trace + events == trace + [e] + [c];
      } else {
        assert events == [e];
      }
    }
  }

  lemma {:induction false} MainnetTracks(config: Config, s: State, input: Input, trace: seq<Event>)
    requires Tracks(config, s, trace)
    ensures Tracks(config, EvaluateMainnet(config, s, input), trace + MainnetEvents(config, s, input))
    ensures Rank(EvaluateMainnet(config, s, input).selected) >= Rank(s.selected)
  {
    var events := MainnetEvents(config, s, input);
    if events == [] {
      assert trace + events == trace;
    } else {
      var e, c := MainEvent(config, input), Chose(Mainnet, EvaluateMainnet(config, s, input).evidence);
      EarnedAppend(trace, e);
      if |events| == 2 {
        EarnedAppend(trace + [e], c);
        assert trace + events == trace + [e] + [c];
      } else {
        assert events == [e];
      }
    }
  }

  lemma PublishTracks(config: Config, s: State, observed: Option<nat>, trace: seq<Event>)
    requires Tracks(config, s, trace)
    ensures var payload := Payload(config, s, observed);
      && Tracks(config, Remember(s, payload), trace) && Remember(s, payload).selected == s.selected
      && payload.profile == s.selected && payload.magic == config.Magic(payload.profile)
  {
  }

  /** However far a poll gets, it moves forward, and what it saves and publishes is one network's. */
  lemma {:induction false} PollTracks(config: Config, s: State, input: Input, trace: seq<Event>)
    requires Tracks(config, s, trace)
    ensures Tracks(config, PollState(config, s, input), trace + PollEvents(config, s, input))
    ensures Rank(PollState(config, s, input).selected) >= Rank(s.selected)
    ensures input.reach.Completed? ==>
      var payload := PollPayload(config, s, input);
      && payload.profile == PollState(config, s, input).selected
      && payload.magic == config.Magic(payload.profile)
  {
    if input.reach.NoObservation? {
      assert trace + PollEvents(config, s, input) == trace;
    } else {
      PublicTracks(config, s, input, trace);
      var s1, t1 := EvaluatePublic(config, s, input), trace + PublicEvents(config, s, input);
      if input.reach.NoMainnetObservation? {
        assert trace + PollEvents(config, s, input) == t1;
      } else {
        MainnetTracks(config, s1, input, t1);
        var s2, t2 := EvaluateMainnet(config, s1, input), t1 + MainnetEvents(config, s1, input);
        assert trace + PollEvents(config, s, input) == t2;
        PublishTracks(config, s2, if s2.selected != s1.selected then input.mainnetStatus else input.status, t2);
      }
    }
  }

  ghost predicate Forward(published: seq<Envelope>, limit: nat)
  {
    && (forall i :: 0 <= i < |published| ==> Rank(published[i].profile) <= limit)
    && (forall i, j :: 0 <= i < j < |published| ==> Rank(published[i].profile) <= Rank(published[j].profile))
  }

  ghost predicate Inv(w: World)
  {
    && Earned(w.trace) && Forward(w.published, DurableRank(w.disk))
    && (w.writer.Some? ==> w.disk.state.Some? && Acceptable(w.writer.value, w.disk.state.value))
    && (w.process.Some? ==>
          && w.disk.state.Some? && w.writer == Some(w.process.value.config)
          && Tracks(w.process.value.config, w.process.value.state, w.trace)
          && Rank(w.process.value.state.selected) >= DurableRank(w.disk))
  }

  lemma OpenTracks(config: Config, disk: Disk, trace: seq<Event>)
    requires Open(config, disk).Ok? && Earned(trace)
    ensures var s := Open(config, disk).value;
      && Acceptable(config, s) && Rank(s.selected) == DurableRank(disk)
      && Tracks(config, s, trace + [Started])
  {
    EarnedAppend(trace, Started);
    assert (trace + [Started])[..|trace|] == trace;
  }

  lemma ForwardAdds(published: seq<Envelope>, limit: nat, shown: seq<Envelope>)
    requires Forward(published, limit) && |shown| <= 1 && forall e :: e in shown ==> Rank(e.profile) == limit
    ensures Forward(published + shown, limit)
  {
  }

  lemma {:induction false} StartKeeps(w: World, config: Config, progress: Progress)
    requires Inv(w)
    ensures Inv(Next(w, Start(config, progress)))
    ensures DurableRank(Next(w, Start(config, progress)).disk) >= DurableRank(w.disk)
  {
    if w.process.None? && Open(config, w.disk).Ok? {
      OpenTracks(config, w.disk, w.trace);
      ForwardAdds(w.published, DurableRank(w.disk), AsSeq(Open(config, w.disk).value.last));
    }
  }

  lemma {:induction false} PollKeeps(w: World, input: Input)
    requires Inv(w)
    ensures Inv(Next(w, Poll(input)))
    ensures DurableRank(Next(w, Poll(input)).disk) >= DurableRank(w.disk)
  {
    if w.process.Some? {
      PollTracks(w.process.value.config, w.process.value.state, input, w.trace);
    }
  }

  lemma {:induction false} RunInv(disk: Disk, steps: seq<Step>)
    ensures Inv(Run(disk, steps))
  {
    if steps != [] {
      var w, step := Run(disk, steps[..|steps| - 1]), steps[|steps| - 1];
      RunInv(disk, steps[..|steps| - 1]);
      match step
      case Crash =>
      case Start(config, progress) => StartKeeps(w, config, progress);
      case Poll(input) => PollKeeps(w, input);
    }
  }

  /** Over any run the durable selection never moves backward, and neither does what is published. */
  lemma {:induction false} NeverFallsBack(disk: Disk, steps: seq<Step>, n: nat)
    requires n <= |steps|
    ensures DurableRank(Run(disk, steps[..n]).disk) <= DurableRank(Run(disk, steps).disk)
    ensures Forward(Run(disk, steps).published, DurableRank(Run(disk, steps).disk))
    decreases |steps|
  {
    RunInv(disk, steps);
    if n == |steps| {
      assert steps[..n] == steps;
    } else {
      var init := steps[..|steps| - 1];
      assert steps[..n] == init[..n];
      NeverFallsBack(disk, init, n);
      RunInv(disk, init);
      match steps[|steps| - 1]
      case Crash =>
      case Start(config, progress) => StartKeeps(Run(disk, init), config, progress);
      case Poll(input) => PollKeeps(Run(disk, init), input);
    }
  }

  /**
   * Every selection in any run rests on three passing evaluations of one process, none failing between,
   * and takes the evidence of the third.
   */
  lemma {:induction false} SelectionsEarned(disk: Disk, steps: seq<Step>, i: nat)
    requires i < |Run(disk, steps).trace|
    ensures EarnedBy(Run(disk, steps).trace[..i], Run(disk, steps).trace[i])
  {
    RunInv(disk, steps);
  }

  /** The state's selection and evidence were chosen in the trace, or were on disk before it. */
  ghost predicate Backed(s: State, trace: seq<Event>, disk: Disk)
  {
    || s.selected.Staging?
    || Chose(s.selected, s.evidence) in trace
    || (disk.state.Some? && disk.state.value.selected == s.selected && disk.state.value.evidence == s.evidence)
  }

  ghost predicate WorldBacked(w: World, disk: Disk)
  {
    && (w.disk.state.Some? ==> Backed(w.disk.state.value, w.trace, disk))
    && (w.process.Some? ==> Backed(w.process.value.state, w.trace, disk))
  }

  lemma BackedLater(s: State, trace: seq<Event>, more: seq<Event>, disk: Disk)
    requires Backed(s, trace, disk)
    ensures Backed(s, trace + more, disk)
  {
  }

  lemma EvaluateBacked(config: Config, s: State, input: Input, trace: seq<Event>, disk: Disk)
    requires Backed(s, trace, disk)
    ensures Backed(EvaluatePublic(config, s, input), trace + PublicEvents(config, s, input), disk)
    ensures Backed(EvaluateMainnet(config, s, input), trace + MainnetEvents(config, s, input), disk)
  {
    var p, m := PublicEvents(config, s, input), MainnetEvents(config, s, input);
    BackedLater(s, trace, p, disk);
    BackedLater(s, trace, m, disk);
    if |p| == 2 { assert p[1] in trace + p; }
    if |m| == 2 { assert m[1] in trace + m; }
  }

  lemma {:induction false} PollBacked(config: Config, s: State, input: Input, trace: seq<Event>, disk: Disk)
    requires Backed(s, trace, disk)
    ensures Backed(PollState(config, s, input), trace + PollEvents(config, s, input), disk)
  {
    if input.reach.NoObservation? {
      assert trace + PollEvents(config, s, input) == trace;
    } else {
      EvaluateBacked(config, s, input, trace, disk);
      var s1, t1 := EvaluatePublic(config, s, input), trace + PublicEvents(config, s, input);
      if input.reach.NoMainnetObservation? {
        assert trace + PollEvents(config, s, input) == t1;
      } else {
        EvaluateBacked(config, s1, input, t1, disk);
        assert trace + PollEvents(config, s, input) == t1 + MainnetEvents(config, s1, input);
      }
    }
  }

  lemma {:induction false} RunBacked(disk: Disk, steps: seq<Step>)
    ensures WorldBacked(Run(disk, steps), disk)
  {
    if steps != [] {
      var w, step := Run(disk, steps[..|steps| - 1]), steps[|steps| - 1];
      RunBacked(disk, steps[..|steps| - 1]);
      match step
      case Crash =>
      case Start(config, progress) =>
        if w.disk.state.Some? { BackedLater(w.disk.state.value, w.trace, [Started], disk); }
      case Poll(input) =>
        if w.process.Some? {
          var config, s := w.process.value.config, w.process.value.state;
          PollBacked(config, s, input, w.trace, disk);
          if w.disk.state.Some? {
            BackedLater(w.disk.state.value, w.trace, PollEvents(config, s, input), disk);
          }
        }
    }
  }

  /**
   * From an empty directory, a selection any run leaves on disk names the evidence of the third of three
   * passing evaluations of one process.
   */
  lemma EvidenceEarned(steps: seq<Step>) returns (i: nat)
    requires var w := Run(Disk(None, false, false), steps);
      w.disk.state.Some? && !w.disk.state.value.selected.Staging?
    ensures var w := Run(Disk(None, false, false), steps);
      var s := w.disk.state.value;
      i < |w.trace| && w.trace[i] == Chose(s.selected, s.evidence) && EarnedBy(w.trace[..i], w.trace[i])
  {
    var w := Run(Disk(None, false, false), steps);
    RunBacked(Disk(None, false, false), steps);
    i :| 0 <= i < |w.trace| && w.trace[i] == Chose(w.disk.state.value.selected, w.disk.state.value.evidence);
    SelectionsEarned(Disk(None, false, false), steps, i);
  }

  /** Every state any process writes is accepted by its own constructor under the same configuration. */
  lemma WrittenStateReopens(disk: Disk, steps: seq<Step>)
    requires Run(disk, steps).writer.Some?
    ensures Open(Run(disk, steps).writer.value, Run(disk, steps).disk).Ok?
  {
    RunInv(disk, steps);
    AcceptableOpens(Run(disk, steps).writer.value, Run(disk, steps).disk);
  }

  ghost predicate FirstStart(steps: seq<Step>, i: nat)
    requires i < |steps|
  {
    steps[i].Start? && forall j :: 0 <= j < i ==> !steps[j].Start?
  }

  /** The first start was cut off after creating its lock file. */
  ghost predicate CutOff(steps: seq<Step>)
  {
    exists i :: 0 <= i < |steps| && FirstStart(steps, i) && steps[i].progress.Locked?
  }

  lemma CutOffExtends(steps: seq<Step>)
    requires steps != []
    ensures var init, step := steps[..|steps| - 1], steps[|steps| - 1];
      CutOff(steps) <==>
        CutOff(init) || (step.Start? && step.progress.Locked? && forall i :: 0 <= i < |init| ==> !init[i].Start?)
  {
    var init, step := steps[..|steps| - 1], steps[|steps| - 1];
    if CutOff(init) {
      var i :| 0 <= i < |init| && FirstStart(init, i) && init[i].progress.Locked?;
      assert FirstStart(steps, i);
    }
    if CutOff(steps) {
      var i :| 0 <= i < |steps| && FirstStart(steps, i) && steps[i].progress.Locked?;
      if i < |init| { assert FirstStart(init, i); }
    }
    if step.Start? && forall i :: 0 <= i < |init| ==> !init[i].Start? {
      assert FirstStart(steps, |steps| - 1);
    }
  }

  /**
   * From an empty directory under one configuration, a start is refused exactly when the first start
   * was cut off between its lock file and its state file.
   */
  lemma {:induction false} RefusedExactly(config: Config, steps: seq<Step>)
    requires forall i :: 0 <= i < |steps| && steps[i].Start? ==> steps[i].config == config
    ensures Open(config, Run(Disk(None, false, false), steps).disk).Err? <==> CutOff(steps)
  {
    FirstStartDecides(config, steps);
    RunInv(Disk(None, false, false), steps);
  }

  /**
   * The start that fails: cut off after its lock file in an empty directory, it leaves one that no later
   * start under any configuration can open, whatever else runs there.
   */
  lemma {:induction false} CutOffNeverOpens(config: Config, later: Config, steps: seq<Step>)
    ensures Open(later, Run(Disk(None, false, false), [Start(config, Locked)] + steps).disk) == Err(StateMissing)
  {
    CutOffStays(config, steps);
  }

  lemma {:induction false} CutOffStays(config: Config, steps: seq<Step>)
    ensures var w := Run(Disk(None, false, false), [Start(config, Locked)] + steps);
      w.process == None && w.disk.state == None && w.disk.lockFile
  {
    var first := [Start(config, Locked)];
    if steps == [] {
      assert first + steps == first && first[..0] == [];
    } else {
      CutOffStays(config, steps[..|steps| - 1]);
      assert (first + steps)[..|first + steps| - 1] == first + steps[..|steps| - 1];
    }
  }

  lemma {:induction false} FirstStartDecides(config: Config, steps: seq<Step>)
    requires forall i :: 0 <= i < |steps| && steps[i].Start? ==> steps[i].config == config
    ensures var w := Run(Disk(None, false, false), steps);
      && (w.disk.state.None? && w.disk.lockFile <==> CutOff(steps))
      && (w.disk.lockFile <==> exists i :: 0 <= i < |steps| && steps[i].Start?)
      && (w.disk.state.Some? ==> w.disk.lockFile && w.writer == Some(config))
      && (w.disk.marker || w.process.Some? ==> w.disk.state.Some?)
      && (w.process.Some? ==> w.process.value.config == config)
  {
    if steps != [] {
      CutOffExtends(steps);
      FirstStartDecides(config, steps[..|steps| - 1]);
      RunInv(Disk(None, false, false), steps[..|steps| - 1]);
    }
  }
}

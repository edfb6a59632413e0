/**
 * The validator quorum of the NU7 selector: which combinations of sources certify a chain, and which
 * tip is published (`ActivationFeed.agreement`, the primary choice of `public_status`).
 */
module Quorum {
  import opened Prelude
  import opened Chain

  datatype Profile = Staging | PublicTestnet | Mainnet

  datatype Observation =
    Observation(name: string, answered: bool, active: bool, height: int, hash: Hash, observedAt: int)

  datatype Evidence =
    Evidence(activationHash: Hash, commonHeight: int, commonHash: Hash, nodes: seq<string>)

  /** `source_hash` by source name; None is a failed read. Chains hold still during one evaluation. */
  type Reads = (string, int) -> Option<Hash>

  predicate Recent(o: Observation, now: int) { 0 <= now - o.observedAt <= 60 }

  predicate Eligible(o: Observation, activation: int, now: int)
  {
    o.answered && o.active && o.height >= activation + 2 && Recent(o, now)
  }

  function Candidates(nodes: seq<Observation>, activation: int, now: int): (r: seq<Observation>)
    ensures forall o :: o in r <==> o in nodes && Eligible(o, activation, now)
    ensures |r| <= |nodes|
  {
    if nodes == [] then []
    else (if Eligible(nodes[0], activation, now) then [nodes[0]] else [])
         + Candidates(nodes[1..], activation, now)
  }

  // ---- itertools.combinations ----

  function PrependAll<T>(x: T, rest: seq<seq<T>>): (r: seq<seq<T>>)
    ensures |r| == |rest| && forall i :: 0 <= i < |r| ==> r[i] == [x] + rest[i]
  {
    seq(|rest|, i requires 0 <= i < |rest| => [x] + rest[i])
  }

  function Combinations<T>(pool: seq<T>, size: nat): seq<seq<T>>
  {
    if size == 0 then [[]]
    else if pool == [] then []
    else PrependAll(pool[0], Combinations(pool[1..], size - 1)) + Combinations(pool[1..], size)
  }

  ghost predicate Subsequence<T>(p: seq<T>, s: seq<T>)
  {
    p == [] || (s != [] && ((p[0] == s[0] && Subsequence(p[1..], s[1..])) || Subsequence(p, s[1..])))
  }

  /** The search enumerates exactly the subsequences of the requested size. */
  lemma {:induction false} CombinationsComplete<T>(pool: seq<T>, size: nat, p: seq<T>)
    ensures p in Combinations(pool, size) <==> |p| == size && Subsequence(p, pool)
  {
    if size > 0 && pool != [] {
      var rest, later := Combinations(pool[1..], size - 1), Combinations(pool[1..], size);
      CombinationsComplete(pool[1..], size, p);
      if p != [] { CombinationsComplete(pool[1..], size - 1, p[1..]); }
      PrependMember(pool[0], rest, p);
      assert p in PrependAll(pool[0], rest) + later <==> p in PrependAll(pool[0], rest) || p in later;
    }
  }

  lemma PrependMember<T>(x: T, rest: seq<seq<T>>, p: seq<T>)
    ensures p in PrependAll(x, rest) <==> p != [] && p[0] == x && p[1..] in rest
  {
    var all := PrependAll(x, rest);
    if p in all {
      var i :| 0 <= i < |all| && all[i] == p;
      assert rest[i] == p[1..];
    }
    if p != [] && p[0] == x && p[1..] in rest {
      var i :| 0 <= i < |rest| && rest[i] == p[1..];
      assert all[i] == p;
    }
  }

  lemma {:induction false} SubsequenceMembers<T>(p: seq<T>, s: seq<T>, x: T)
    requires Subsequence(p, s) && x in p
    ensures x in s
  {
    if p[0] == s[0] && Subsequence(p[1..], s[1..]) {
      if x != p[0] { SubsequenceMembers(p[1..], s[1..], x); }
    } else {
      SubsequenceMembers(p, s[1..], x);
    }
  }

  lemma {:induction false} SubsequenceFull<T>(p: seq<T>, s: seq<T>)
    requires Subsequence(p, s)
    ensures |p| <= |s|
    ensures |p| == |s| ==> p == s
  {
    if p != [] {
      if p[0] == s[0] && Subsequence(p[1..], s[1..]) {
        SubsequenceFull(p[1..], s[1..]);
        assert p == [p[0]] + p[1..] && s == [s[0]] + s[1..];
      } else {
        SubsequenceFull(p, s[1..]);
      }
    }
  }

  // ---- agreement ----

  function Lowest(sources: seq<Observation>): (h: int)
    requires sources != []
    ensures forall o :: o in sources ==> h <= o.height
    ensures exists o :: o in sources && o.height == h
  {
    if |sources| == 1 then sources[0].height else Min(sources[0].height, Lowest(sources[1..]))
  }

  ghost predicate Reports(sources: seq<Observation>, height: int, hash: Hash, read: Reads)
  {
    forall i :: 0 <= i < |sources| ==> read(sources[i].name, height) == Some(hash)
  }

  function Required(profile: Profile): nat { if profile.Mainnet? then 3 else 2 }

  function Sources(profile: Profile, combo: seq<Observation>, reference: Observation): seq<Observation>
  {
    if profile.Mainnet? then combo else combo + [reference]
  }

  /** The combination's sources agree on the activation block and on their common height. */
  ghost predicate Certifies(profile: Profile, combo: seq<Observation>, reference: Observation,
                            activation: int, read: Reads, activationHash: Hash, commonHash: Hash)
  {
    var sources := Sources(profile, combo, reference);
    && sources != []
    && Reports(sources, activation, activationHash, read)
    && Reports(sources, Lowest(sources), commonHash, read)
  }

  ghost predicate Names(evidence: Evidence, candidates: seq<Observation>, activation: int, read: Reads)
  {
    && (forall o :: o in candidates ==>
          (o.name in evidence.nodes <==>
           && read(o.name, activation) == Some(evidence.activationHash)
           && read(o.name, evidence.commonHeight) == Some(evidence.commonHash)))
    && (forall name :: name in evidence.nodes ==> exists o :: o in candidates && o.name == name)
  }

  /** Each source is recent at its own reading of the clock, the readings made in order from `tick` on. */
  ghost predicate RecentAt(sources: seq<Observation>, clock: nat -> int, tick: nat)
  {
    forall i :: 0 <= i < |sources| ==> Recent(sources[i], clock(tick + i))
  }

  /** What an evidence stands for that was returned after the clock readings from `tick` on. */
  ghost predicate Sound(profile: Profile, nodes: seq<Observation>, reference: Observation, activation: int, now: int,
                        read: Reads, clock: nat -> int, tick: nat, evidence: Evidence, combo: seq<Observation>)
  {
    var candidates := Candidates(nodes, activation, now);
    && |combo| == Required(profile) && Subsequence(combo, candidates)
    && (forall o :: o in Sources(profile, combo, reference) ==> Eligible(o, activation, now))
    && RecentAt(Sources(profile, combo, reference), clock, tick)
    && Certifies(profile, combo, reference, activation, read, evidence.activationHash, evidence.commonHash)
    && evidence.commonHeight == Lowest(Sources(profile, combo, reference)) >= activation + 2
    && Names(evidence, candidates, activation, read)
  }

  /** Read one height from every source: the common answer, or None on failure or disagreement. */
  method ReadAll(sources: seq<Observation>, height: int, read: Reads) returns (hash: Option<Hash>)
    requires sources != []
    ensures hash.Some? ==> Reports(sources, height, hash.value, read)
    ensures hash.None? ==> forall h :: !Reports(sources, height, h, read)
  {
    hash := read(sources[0].name, height);
    if hash.None? { return; }
    for i := 1 to |sources|
      invariant forall j :: 0 <= j < i ==> read(sources[j].name, height) == hash
    {
      if read(sources[i].name, height) != hash { return None; }
    }
  }

  /** Recheck every source's age; each source reads the clock anew, and the first stale one ends it. */
  method StillRecent(sources: seq<Observation>, clock: nat -> int, tick: nat) returns (ok: bool, next: nat)
    ensures tick <= next <= tick + |sources| && (ok <==> RecentAt(sources, clock, tick))
    ensures ok ==> next == tick + |sources|
    ensures !ok ==> tick < next && !Recent(sources[next - 1 - tick], clock(next - 1))
  {
    next := tick;
    for i := 0 to |sources|
      invariant next == tick + i && forall j :: 0 <= j < i ==> Recent(sources[j], clock(tick + j))
    {
      next := next + 1;
      if !Recent(sources[i], clock(tick + i)) { return false, next; }
    }
    ok := true;
  }

  /** The certifying combination's names, then every other candidate that reads the same two hashes. */
  method Endorsers(combo: seq<Observation>, candidates: seq<Observation>, activation: int, common: int,
                   activationHash: Hash, commonHash: Hash, read: Reads)
    returns (nodes: seq<string>)
    requires Subsequence(combo, candidates)
    requires Reports(combo, activation, activationHash, read) && Reports(combo, common, commonHash, read)
    ensures Names(Evidence(activationHash, common, commonHash, nodes), candidates, activation, read)
  {
    nodes := [];
    for i := 0 to |combo|
      invariant forall name :: name in nodes <==> exists j :: 0 <= j < i && combo[j].name == name
    {
      nodes := nodes + [combo[i].name];
    }
    forall name | name in nodes ensures exists o :: o in candidates && o.name == name {
      var j :| 0 <= j < |combo| && combo[j].name == name;
      SubsequenceMembers(combo, candidates, combo[j]);
    }
    for i := 0 to |candidates|
      invariant forall j :: 0 <= j < i ==>
        (candidates[j].name in nodes <==>
          && read(candidates[j].name, activation) == Some(activationHash)
          && read(candidates[j].name, common) == Some(commonHash))
      invariant forall name :: name in nodes ==>
        && read(name, activation) == Some(activationHash)
        && read(name, common) == Some(commonHash)
        && exists o :: o in candidates && o.name == name
    {
      var c := candidates[i];
      if c.name !in nodes {
        if read(c.name, activation) == Some(activationHash) && read(c.name, common) == Some(commonHash) {
          nodes := nodes + [c.name];
        }
      }
    }
  }

  /** A combination that certifies and whose sources stay recent at the first `used` clock readings. */
  ghost predicate Available(profile: Profile, nodes: seq<Observation>, reference: Observation, activation: int,
                            now: int,
                            read: Reads, clock: nat -> int, used: nat, combo: seq<Observation>)
  {
    && |combo| == Required(profile) && Subsequence(combo, Candidates(nodes, activation, now))
    && (!profile.Mainnet? ==> Eligible(reference, activation, now))
    && (forall o, t: nat :: o in Sources(profile, combo, reference) && t < used ==> Recent(o, clock(t)))
    && exists a, c :: Certifies(profile, combo, reference, activation, read, a, c)
  }

  method TryCombination(profile: Profile, combo: seq<Observation>, candidates: seq<Observation>,
                        reference: Observation, activation: int, read: Reads, clock: nat -> int, tick: nat)
    returns (evidence: Option<Evidence>, next: nat)
    requires Subsequence(combo, candidates) && combo != []
    ensures tick <= next <= tick + |Sources(profile, combo, reference)|
    ensures evidence.Some? ==>
      && Certifies(profile, combo, reference, activation, read,
                   evidence.value.activationHash, evidence.value.commonHash)
      && evidence.value.commonHeight == Lowest(Sources(profile, combo, reference))
      && Names(evidence.value, candidates, activation, read)
      && RecentAt(Sources(profile, combo, reference), clock, tick)
      && next == tick + |Sources(profile, combo, reference)|
    ensures evidence.None? ==>
      || (exists o, t: nat :: o in Sources(profile, combo, reference) && t < next && !Recent(o, clock(t)))
      || forall a, c :: !Certifies(profile, combo, reference, activation, read, a, c)
  {
    next := tick;
    var sources := Sources(profile, combo, reference);
    var common := Lowest(sources);
    var activationHash := ReadAll(sources, activation, read);
    if activationHash.None? { return None, next; }
    var commonHash := ReadAll(sources, common, read);
    if commonHash.None? { return None, next; }
    var recent, later := StillRecent(sources, clock, tick);
    next := later;
    if !recent {
      assert sources[next - 1 - tick] in sources;
      return None, next;
    }
    assert forall i :: 0 <= i < |combo| ==> sources[i] == combo[i];
    var names := Endorsers(combo, candidates, activation, common, activationHash.value, commonHash.value, read);
    evidence := Some(Evidence(activationHash.value, common, commonHash.value, names));
  }

  lemma {:induction false} FoundSound(profile: Profile, nodes: seq<Observation>, reference: Observation,
                                      activation: int, now: int, read: Reads, clock: nat -> int, tick: nat,
                                      combo: seq<Observation>, found: Evidence)
    requires |combo| == Required(profile) && Subsequence(combo, Candidates(nodes, activation, now))
    requires !profile.Mainnet? ==> Eligible(reference, activation, now)
    requires Certifies(profile, combo, reference, activation, read, found.activationHash, found.commonHash)
    requires found.commonHeight == Lowest(Sources(profile, combo, reference))
    requires Names(found, Candidates(nodes, activation, now), activation, read)
    requires RecentAt(Sources(profile, combo, reference), clock, tick)
    ensures Sound(profile, nodes, reference, activation, now, read, clock, tick, found, combo)
  {
    forall o | o in Sources(profile, combo, reference) ensures Eligible(o, activation, now) {
      if o in combo { SubsequenceMembers(combo, Candidates(nodes, activation, now), o); }
    }
  }

  method Attempt(profile: Profile, nodes: seq<Observation>, reference: Observation, activation: int, now: int,
                 read: Reads, clock: nat -> int, combo: seq<Observation>, tick: nat)
    returns (evidence: Option<Evidence>, next: nat)
    requires !profile.Staging? && (!profile.Mainnet? ==> Eligible(reference, activation, now))
    requires |combo| == Required(profile) && Subsequence(combo, Candidates(nodes, activation, now))
    ensures tick <= next <= tick + 3
    ensures evidence.Some? ==>
      next == tick + 3 && Sound(profile, nodes, reference, activation, now, read, clock, tick, evidence.value, combo)
    ensures evidence.None? ==> !Available(profile, nodes, reference, activation, now, read, clock, next, combo)
  {
    evidence, next :=
      TryCombination(profile, combo, Candidates(nodes, activation, now), reference, activation, read, clock, tick);
    if evidence.Some? {
      FoundSound(profile, nodes, reference, activation, now, read, clock, tick, combo, evidence.value);
    }
  }

  ghost predicate Usable(profile: Profile, nodes: seq<Observation>, activation: int, now: int, combo: seq<Observation>)
  {
    |combo| == Required(profile) && Subsequence(combo, Candidates(nodes, activation, now))
  }

  ghost predicate NoneAvailable(profile: Profile, nodes: seq<Observation>, reference: Observation, activation: int,
                                now: int, read: Reads, clock: nat -> int, used: nat, tried: seq<seq<Observation>>)
  {
    forall combo :: combo in tried ==>
      !Available(profile, nodes, reference, activation, now, read, clock, used, combo)
  }

  /** What was unavailable after fewer clock readings is unavailable after more. */
  lemma {:induction false} StillUnavailable(profile: Profile, nodes: seq<Observation>, reference: Observation,
                                            activation: int, now: int, read: Reads, clock: nat -> int, used: nat,
                                            later: nat, tried: seq<seq<Observation>>, combo: seq<Observation>)
    requires used <= later
    requires NoneAvailable(profile, nodes, reference, activation, now, read, clock, used, tried)
    requires !Available(profile, nodes, reference, activation, now, read, clock, later, combo)
    ensures NoneAvailable(profile, nodes, reference, activation, now, read, clock, later, tried + [combo])
  {
  }

  /** Try the combinations in turn; the first that certifies decides. */
  method Search(profile: Profile, nodes: seq<Observation>, reference: Observation, activation: int, now: int,
                read: Reads, clock: nat -> int, combos: seq<seq<Observation>>)
    returns (evidence: Option<Evidence>, used: nat, ghost winner: seq<Observation>)
    requires !profile.Staging? && (!profile.Mainnet? ==> Eligible(reference, activation, now))
    requires forall combo :: combo in combos ==> Usable(profile, nodes, activation, now, combo)
    ensures used <= 3 * |combos|
    ensures evidence.Some? ==>
      && used >= 3
      && Sound(profile, nodes, reference, activation, now, read, clock, used - 3, evidence.value, winner)
    ensures evidence.None? ==>
      NoneAvailable(profile, nodes, reference, activation, now, read, clock, used, combos)
  {
    used := 0;
    evidence, winner := None, [];
    for i := 0 to |combos|
      invariant evidence.None? && used <= 3 * i
      invariant NoneAvailable(profile, nodes, reference, activation, now, read, clock, used, combos[..i])
    {
      winner := combos[i];
      ghost var before := used;
      assert Usable(profile, nodes, activation, now, winner);
      evidence, used := Attempt(profile, nodes, reference, activation, now, read, clock, combos[i], used);
      if evidence.Some? { return; }
      StillUnavailable(profile, nodes, reference, activation, now, read, clock, before, used, combos[..i], winner);
      assert combos[..i + 1] == combos[..i] + [winner];
    }
    assert combos[..|combos|] == combos;
  }

  lemma TooFew(candidates: seq<Observation>, combo: seq<Observation>)
    requires Subsequence(combo, candidates)
    ensures |combo| <= |candidates|
  {
    SubsequenceFull(combo, candidates);
  }

  /**
   * Soundness and completeness of the quorum search, which makes `used` clock readings: evidence rests on
   * sources that were recent at its last three, and without evidence no combination certifies whose
   * sources stay recent at them all.
   */
  method Agreement(profile: Profile, nodes: seq<Observation>, reference: Observation, activation: int,
                   now: int, read: Reads, clock: nat -> int)
    returns (evidence: Option<Evidence>, used: nat)
    requires !profile.Staging?
    ensures used <= 3 * |Combinations(Candidates(nodes, activation, now), Required(profile))|
    ensures evidence.Some? ==> exists combo, tick: nat ::
      tick + 3 == used && Sound(profile, nodes, reference, activation, now, read, clock, tick, evidence.value, combo)
    ensures evidence.None? ==>
      forall combo :: !Available(profile, nodes, reference, activation, now, read, clock, used, combo)
  {
    var candidates := Candidates(nodes, activation, now);
    var required := Required(profile);
    if |candidates| < required {
      forall combo | Subsequence(combo, candidates) ensures |combo| < required { TooFew(candidates, combo); }
      return None, 0;
    }
    if profile.PublicTestnet? && !Eligible(reference, activation, now) { return None, 0; }
    var combos := Combinations(candidates, required);
    forall combo ensures combo in combos <==> |combo| == required && Subsequence(combo, candidates) {
      CombinationsComplete(candidates, required, combo);
    }
    ghost var winner;
    evidence, used, winner := Search(profile, nodes, reference, activation, now, read, clock, combos);
  }

  // ---- no conflicting certificates ----

  /** Every read is an answer from the named source's chain. */
  ghost predicate ReadsChains(book: Book, views: string -> View, read: Reads)
  {
    && (forall name {:trigger views(name)} :: Linked(book, views(name)))
    && (forall name, h: int {:trigger read(name, h)} :: read(name, h).Some? ==>
          0 <= h < |views(name)| && read(name, h).value == views(name)[h])
  }

  /** Any two certifying combinations share a source: the reference, or the whole Mainnet fleet. */
  lemma SharedSource(profile: Profile, candidates: seq<Observation>, reference: Observation,
                     p: seq<Observation>, q: seq<Observation>)
    returns (shared: Observation)
    requires |candidates| <= 3 && |p| == |q| == Required(profile)
    requires Subsequence(p, candidates) && Subsequence(q, candidates)
    ensures shared in Sources(profile, p, reference) && shared in Sources(profile, q, reference)
  {
    if profile.Mainnet? {
      SubsequenceFull(p, candidates);
      SubsequenceFull(q, candidates);
      shared := p[0];
    } else {
      shared := reference;
    }
  }

  /**
   * Two evidences from one set of observations never certify conflicting chains: the one with the lower
   * common height names an ancestor of the other, and both descend from one activation block.
   */
  lemma {:induction false} NoConflict(book: Book, views: string -> View, profile: Profile, nodes: seq<Observation>,
                                      reference: Observation, activation: nat, now: int, read: Reads,
                                      clock: nat -> int, s: nat, e: Evidence, p: seq<Observation>,
                                      t: nat, f: Evidence, q: seq<Observation>)
    requires |nodes| == 3 && ReadsChains(book, views, read)
    requires Sound(profile, nodes, reference, activation, now, read, clock, s, e, p)
    requires Sound(profile, nodes, reference, activation, now, read, clock, t, f, q)
    requires e.commonHeight <= f.commonHeight
    ensures e.activationHash == f.activationHash
    ensures Ancestor(book, f.commonHash, f.commonHeight - e.commonHeight) == e.commonHash
    ensures Ancestor(book, e.commonHash, e.commonHeight - activation) == e.activationHash
  {
    var shared := SharedSource(profile, Candidates(nodes, activation, now), reference, p, q);
    OneChain(book, views, read, shared.name, activation, e, f);
  }

  lemma OneChain(book: Book, views: string -> View, read: Reads, name: string, activation: nat, e: Evidence,
                 f: Evidence)
    requires ReadsChains(book, views, read) && activation <= e.commonHeight <= f.commonHeight
    requires read(name, activation) == Some(e.activationHash) == Some(f.activationHash)
    requires read(name, e.commonHeight) == Some(e.commonHash) && read(name, f.commonHeight) == Some(f.commonHash)
    ensures Ancestor(book, f.commonHash, f.commonHeight - e.commonHeight) == e.commonHash
    ensures Ancestor(book, e.commonHash, e.commonHeight - activation) == e.activationHash
  {
    ViewAncestor(book, views(name), f.commonHeight, e.commonHeight);
    ViewAncestor(book, views(name), e.commonHeight, activation);
  }

  // ---- the published tip ----

  /** A second agreeing validator, at least as high, reads this observation's exact tip. */
  ghost predicate Confirmed(o: Observation, available: seq<Observation>, read: Reads)
  {
    exists peer :: peer in available && Confirms(peer, o, read)
  }

  predicate Confirms(peer: Observation, o: Observation, read: Reads)
  {
    peer.name != o.name && peer.height >= o.height && read(peer.name, o.height) == Some(o.hash)
  }

  function Insert(o: Observation, s: seq<Observation>): seq<Observation>
  {
    if s == [] || s[0].height <= o.height then [o] + s else [s[0]] + Insert(o, s[1..])
  }

  lemma {:induction false} InsertPermutes(o: Observation, s: seq<Observation>)
    ensures multiset(Insert(o, s)) == multiset(s) + multiset{o}
  {
    if s != [] && s[0].height > o.height {
      InsertPermutes(o, s[1..]);
      assert s == [s[0]] + s[1..];
    }
  }

  lemma {:induction false} InsertDescends(o: Observation, s: seq<Observation>)
    requires Descending(s)
    ensures Descending(Insert(o, s)) && forall i :: 0 <= i < |Insert(o, s)| ==>
      Insert(o, s)[i].height <= if s == [] then o.height else Max(o.height, s[0].height)
  {
    if s != [] && s[0].height > o.height { InsertDescends(o, s[1..]); }
  }

  ghost predicate Descending(s: seq<Observation>)
  {
    forall i, j :: 0 <= i < j < |s| ==> s[i].height >= s[j].height
  }

  /** Stable order by height, highest first: earlier observations are inserted last. */
  function SortByHeight(s: seq<Observation>): seq<Observation>
  {
    if s == [] then [] else Insert(s[0], SortByHeight(s[1..]))
  }

  lemma {:induction false} SortDescends(s: seq<Observation>)
    ensures Descending(SortByHeight(s)) && multiset(SortByHeight(s)) == multiset(s)
  {
    if s != [] {
      SortDescends(s[1..]);
      InsertDescends(s[0], SortByHeight(s[1..]));
      InsertPermutes(s[0], SortByHeight(s[1..]));
      assert s == [s[0]] + s[1..];
    }
  }

  /** Observations allowed to supply the tip: active, and endorsed by the evidence when there is one. */
  function Publishable(nodes: seq<Observation>, evidence: Option<Evidence>): (r: seq<Observation>)
    ensures forall o :: o in r <==>
      o in nodes && o.answered && o.active && (evidence.Some? ==> o.name in evidence.value.nodes)
  {
    if nodes == [] then []
    else
      var o := nodes[0];
      (if o.answered && o.active && (evidence.Some? ==> o.name in evidence.value.nodes) then [o] else [])
      + Publishable(nodes[1..], evidence)
  }

  lemma SortMembers(s: seq<Observation>, o: Observation)
    ensures o in SortByHeight(s) <==> o in s
  {
    SortDescends(s);
    assert o in SortByHeight(s) <==> o in multiset(SortByHeight(s));
  }

  method HasConfirmation(o: Observation, available: seq<Observation>, read: Reads) returns (r: bool)
    ensures r <==> Confirmed(o, available, read)
  {
    for k := 0 to |available|
      invariant forall j :: 0 <= j < k ==> !Confirms(available[j], o, read)
    {
      if Confirms(available[k], o, read) { return true; }
    }
    r := false;
  }

  /** The first observation in order that another confirms. */
  method FirstConfirmed(ordered: seq<Observation>, available: seq<Observation>, read: Reads)
    returns (primary: Option<Observation>)
    requires Descending(ordered)
    ensures primary.Some? ==> primary.value in ordered && Confirmed(primary.value, available, read)
    ensures primary.Some? ==> forall o ::
      o in ordered && Confirmed(o, available, read) ==> o.height <= primary.value.height
    ensures primary.None? ==> forall o :: o in ordered ==> !Confirmed(o, available, read)
  {
    for i := 0 to |ordered|
      invariant forall j :: 0 <= j < i ==> !Confirmed(ordered[j], available, read)
    {
      var confirmed := HasConfirmation(ordered[i], available, read);
      if confirmed { return Some(ordered[i]); }
    }
    primary := None;
  }

  /** The published tip is the highest one a second agreeing validator confirms, if any is confirmed. */
  method ChoosePrimary(nodes: seq<Observation>, evidence: Option<Evidence>, read: Reads)
    returns (primary: Option<Observation>)
    ensures var available := Publishable(nodes, evidence);
      && (primary.Some? ==>
            && primary.value in available && Confirmed(primary.value, available, read)
            && forall o :: o in available && Confirmed(o, available, read) ==> o.height <= primary.value.height)
      && (primary.None? ==> forall o :: o in available ==> !Confirmed(o, available, read))
  {
    var available := Publishable(nodes, evidence);
    SortDescends(available);
    SortedMembers(available);
    primary := FirstConfirmed(SortByHeight(available), available, read);
  }

  /** A tip another source backs: one of a different name, at least as high, that reads the same hash there. */
  lemma ConfirmedExactly(o: Observation, available: seq<Observation>, read: Reads)
    ensures Confirmed(o, available, read) <==> exists peer ::
      && peer in available && peer.name != o.name && o.height <= peer.height
      && read(peer.name, o.height) == Some(o.hash)
  {
  }

  lemma SortedMembers(s: seq<Observation>)
    ensures forall o :: o in SortByHeight(s) <==> o in s
  {
    forall o ensures o in SortByHeight(s) <==> o in s { SortMembers(s, o); }
  }

  // ---- what evidence stands for, on the observations alone ----

  /** The source answered, is on the right branch two blocks past activation, and was observed within a minute. */
  predicate Fit(o: Observation, activation: int, at: int)
  {
    && o.answered && o.active && activation + 2 <= o.height
    && o.observedAt <= at && at <= o.observedAt + 60
  }

  lemma {:induction false} CandidatesFit(nodes: seq<Observation>, activation: int, now: int, p: seq<Observation>)
    ensures Subsequence(p, Candidates(nodes, activation, now)) <==>
      Subsequence(p, nodes) && forall o :: o in p ==> Fit(o, activation, now)
  {
    if nodes != [] {
      var rest, first := Candidates(nodes[1..], activation, now), nodes[0];
      CandidatesFit(nodes[1..], activation, now, p);
      if p != [] {
        assert p == [p[0]] + p[1..];
        CandidatesFit(nodes[1..], activation, now, p[1..]);
        assert (forall o :: o in p ==> Fit(o, activation, now)) <==>
          Fit(p[0], activation, now) && forall o :: o in p[1..] ==> Fit(o, activation, now);
        if Eligible(first, activation, now) {
          assert ([first] + rest)[1..] == rest && Candidates(nodes, activation, now) == [first] + rest;
        } else {
          assert [] + rest == rest && Candidates(nodes, activation, now) == rest;
        }
      }
    }
  }

  /** The number of sources the search asks of the fleet: all three on Mainnet, a pair elsewhere. */
  ghost predicate Crew(mainnet: bool, nodes: seq<Observation>, combo: seq<Observation>)
  {
    |combo| == (if mainnet then 3 else 2) && Subsequence(combo, nodes)
  }

  /** The source reads both hashes, and its chain reaches the common height. */
  ghost predicate Vouches(o: Observation, activation: int, read: Reads, e: Evidence)
  {
    && read(o.name, activation) == Some(e.activationHash) && read(o.name, e.commonHeight) == Some(e.commonHash)
    && e.commonHeight <= o.height
  }

  /** Fit when the evaluation began, vouching, and still within its minute at the later reading. */
  ghost predicate Backs(o: Observation, activation: int, now: int, read: Reads, e: Evidence, later: int)
  {
    Fit(o, activation, now) && Vouches(o, activation, read, e) && o.observedAt <= later <= o.observedAt + 60
  }

  /**
   * Evidence means that all three nodes on Mainnet, or two nodes and the reference on the testnet, were fit
   * when the evaluation began, within a minute of their observation at their own later clock readings, and
   * read the evidence's two hashes; the common height is that of the lowest of them.
   */
  lemma EvidenceMeans(profile: Profile, nodes: seq<Observation>, reference: Observation, activation: int, now: int,
                      read: Reads, clock: nat -> int, tick: nat, e: Evidence, combo: seq<Observation>)
    requires !profile.Staging?
    requires Sound(profile, nodes, reference, activation, now, read, clock, tick, e, combo)
    ensures Crew(profile.Mainnet?, nodes, combo)
    ensures forall i :: 0 <= i < |combo| ==> Backs(combo[i], activation, now, read, e, clock(tick + i))
    ensures profile.PublicTestnet? ==> Backs(reference, activation, now, read, e, clock(tick + 2))
    ensures exists o :: (o in combo || (profile.PublicTestnet? && o == reference)) && o.height == e.commonHeight
  {
    CandidatesFit(nodes, activation, now, combo);
    forall i | 0 <= i < |combo| ensures Backs(combo[i], activation, now, read, e, clock(tick + i)) {
      SoundBacks(profile, nodes, reference, activation, now, read, clock, tick, e, combo, i, combo[i]);
    }
    if profile.PublicTestnet? {
      SoundBacks(profile, nodes, reference, activation, now, read, clock, tick, e, combo, 2, reference);
    }
    LowestSource(profile, combo, reference);
  }

  lemma SoundBacks(profile: Profile, nodes: seq<Observation>, reference: Observation, activation: int, now: int,
                   read: Reads, clock: nat -> int, tick: nat, e: Evidence, combo: seq<Observation>, i: nat,
                   o: Observation)
    requires Sound(profile, nodes, reference, activation, now, read, clock, tick, e, combo)
    requires i < |Sources(profile, combo, reference)| && o == Sources(profile, combo, reference)[i]
    ensures Backs(o, activation, now, read, e, clock(tick + i))
  {
    SourceBacks(Sources(profile, combo, reference), activation, now, read, clock, tick, e, i);
  }

  lemma SourceBacks(sources: seq<Observation>, activation: int, now: int, read: Reads, clock: nat -> int, tick: nat,
                    e: Evidence, i: nat)
    requires i < |sources| && e.commonHeight == Lowest(sources) && Eligible(sources[i], activation, now)
    requires Reports(sources, activation, e.activationHash, read) && RecentAt(sources, clock, tick)
    requires Reports(sources, Lowest(sources), e.commonHash, read)
    ensures Backs(sources[i], activation, now, read, e, clock(tick + i))
  {
    assert Recent(sources[i], clock(tick + i));
  }

  lemma LowestSource(profile: Profile, combo: seq<Observation>, reference: Observation)
    requires !profile.Staging? && Sources(profile, combo, reference) != []
    ensures exists o :: (o in combo || (profile.PublicTestnet? && o == reference)) &&
                        o.height == Lowest(Sources(profile, combo, reference))
  {
    var sources := Sources(profile, combo, reference);
    var low := Lowest(sources);
    var o :| o in sources && o.height == low;
    SourcesMembers(profile, combo, reference, o);
  }

  lemma SourcesMembers(profile: Profile, combo: seq<Observation>, reference: Observation, o: Observation)
    requires !profile.Staging?
    ensures o in Sources(profile, combo, reference) <==> o in combo || (profile.PublicTestnet? && o == reference)
  {
  }

  /** Whatever crew of fit, agreeing and lastingly recent sources there is, is available to the search. */
  lemma CrewAvailable(profile: Profile, nodes: seq<Observation>, reference: Observation, activation: int, now: int,
                      read: Reads, clock: nat -> int, used: nat, e: Evidence, combo: seq<Observation>)
    requires !profile.Staging? && Crew(profile.Mainnet?, nodes, combo)
    requires forall o :: o in combo || (profile.PublicTestnet? && o == reference) ==>
      && Fit(o, activation, now) && Vouches(o, activation, read, e)
      && forall t: nat :: t < used ==> o.observedAt <= clock(t) <= o.observedAt + 60
    requires exists o :: (o in combo || (profile.PublicTestnet? && o == reference)) && o.height == e.commonHeight
    ensures Available(profile, nodes, reference, activation, now, read, clock, used, combo)
  {
    var sources := Sources(profile, combo, reference);
    CandidatesFit(nodes, activation, now, combo);
    forall o ensures o in sources <==> o in combo || (profile.PublicTestnet? && o == reference) {
      SourcesMembers(profile, combo, reference, o);
    }
    CrewCertifies(profile, combo, reference, activation, read, e);
  }

  lemma CrewCertifies(profile: Profile, combo: seq<Observation>, reference: Observation, activation: int, read: Reads,
                      e: Evidence)
    requires Sources(profile, combo, reference) != []
    requires forall o :: o in Sources(profile, combo, reference) ==> Vouches(o, activation, read, e)
    requires exists o :: o in Sources(profile, combo, reference) && o.height == e.commonHeight
    ensures Certifies(profile, combo, reference, activation, read, e.activationHash, e.commonHash)
  {
    var sources := Sources(profile, combo, reference);
    var l :| l in sources && l.height == Lowest(sources);
    assert Vouches(l, activation, read, e);
    assert Lowest(sources) == e.commonHeight;
    forall i | 0 <= i < |sources| ensures Vouches(sources[i], activation, read, e) { assert sources[i] in sources; }
  }
}

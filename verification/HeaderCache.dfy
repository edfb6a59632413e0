/**
 * The header cache of the NU7 feed (`ActivationFeed.public_status`), keyed by source and height. It must
 * return what an uncached read of the same range would return.
 */
module HeaderCache {
  import opened Prelude
  import opened Chain
  import opened Sessions

  type Url = string

  /** Why a collection raises: a read of its window failed, or the source no longer confirms the tip. */
  datatype Failure = Unread | Unconfirmed

  type Answer = Result<seq<Header>, Failure>

  /** The headers cached for a source are ancestors of the tip last recorded for it. */
  ghost predicate Coherent(book: Book, headers: map<(Url, nat), Header>, tips: map<Url, Tip>, url: Url)
  {
    forall n: nat :: (url, n) in headers ==>
      && url in tips && n <= tips[url].height
      && headers[(url, n)] == book(Ancestor(book, tips[url].hash, tips[url].height - n))
  }

  /** Re-anchoring a source at a later tip on the same chain keeps its cached headers ancestors. */
  lemma CoherentExtend(book: Book, headers: map<(Url, nat), Header>, tips: map<Url, Tip>,
                       url: Url, view: View, tip: Tip)
    requires Coherent(book, headers, tips, url) && Linked(book, view)
    requires tip.height < |view| && view[tip.height] == tip.hash
    requires url in tips ==> tips[url].height <= tip.height && view[tips[url].height] == tips[url].hash
    ensures Coherent(book, headers, tips[url := tip], url)
  {
    forall n: nat | (url, n) in headers
      ensures n <= tip.height && headers[(url, n)] == book(Ancestor(book, tip.hash, tip.height - n))
    {
      ViewAncestor(book, view, tips[url].height, n);
      ViewAncestor(book, view, tip.height, n);
    }
  }

  /** In a pinned session, what the loop stores keeps the cache coherent and is the direct read. */
  lemma CoherentAdd(book: Book, headers: map<(Url, nat), Header>, tips: map<Url, Tip>,
                    url: Url, number: nat, header: Header)
    requires Coherent(book, headers, tips, url) && url in tips && number <= tips[url].height
    requires header == book(Ancestor(book, tips[url].hash, tips[url].height - number))
    ensures Coherent(book, headers[(url, number) := header], tips, url)
  {
  }

  // ---- what one collection finds in the cache ----

  /** The recorded tip of the source cannot be compared: the read of its height raises. */
  predicate Unanswered(tips: map<Url, Tip>, rpc: Session, url: Url, tip: Tip)
  {
    url in tips && tips[url].height <= tip.height && rpc.HashAt(0, tips[url].height).None?
  }

  /** The recorded tip of the source is above the new one, or no longer on the source's chain. */
  predicate Empties(tips: map<Url, Tip>, rpc: Session, url: Url, tip: Tip)
  {
    && url in tips && !Unanswered(tips, rpc, url, tip)
    && (tips[url].height > tip.height || rpc.HashAt(0, tips[url].height) != Some(tips[url].hash))
  }

  /** The headers the collection starts from. */
  function Survivors(headers: map<(Url, nat), Header>, tips: map<Url, Tip>, rpc: Session, url: Url, tip: Tip)
    : map<(Url, nat), Header>
  {
    if Empties(tips, rpc, url, tip) then map[] else headers
  }

  /** The header is served from the cache rather than read again. */
  predicate Served(headers: map<(Url, nat), Header>, url: Url, tip: Tip, number: nat)
  {
    (url, number) in headers && number < tip.height - 2
  }

  /** Every cached header the collection would serve is the ancestor of its tip at that height. */
  ghost predicate Clean(book: Book, headers: map<(Url, nat), Header>, url: Url, tip: Tip, start: nat)
  {
    forall number: nat :: start <= number <= tip.height && Served(headers, url, tip, number) ==>
      headers[(url, number)] == book(Ancestor(book, tip.hash, tip.height - number))
  }

  /** What a pinned collection returns: cached headers where they are served, the chain's elsewhere. */
  ghost function Mixed(book: Book, view: View, headers: map<(Url, nat), Header>, url: Url, tip: Tip,
                       number: nat): Header
    requires number < |view|
  {
    if Served(headers, url, tip, number) then headers[(url, number)] else book(view[number])
  }

  /** Serving from the cache gives the direct read if and only if what is served is clean. */
  lemma MixedIsDirect(book: Book, rpc: Session, headers: map<(Url, nat), Header>, url: Url, tip: Tip, start: nat,
                      collected: seq<Header>)
    requires rpc.Pinned(book, tip.height, tip.hash) && start <= tip.height < |rpc.view(0)|
    requires |collected| == tip.height + 1 - start && MixedSoFar(book, rpc, headers, url, tip, start, collected)
    ensures collected == DirectRead(book, rpc.view(0), start, tip.height) <==> Clean(book, headers, url, tip, start)
  {
    var direct := DirectRead(book, rpc.view(0), start, tip.height);
    forall i | 0 <= i < |direct| ensures direct[i] == book(Ancestor(book, tip.hash, tip.height - (start + i))) {
      PinnedRead(book, rpc, tip.height, tip.hash, 0, start + i);
    }
    if collected == direct {
      forall number: nat | start <= number <= tip.height && Served(headers, url, tip, number)
        ensures headers[(url, number)] == book(Ancestor(book, tip.hash, tip.height - number))
      {
        assert collected[number - start] == direct[number - start];
      }
    }
    if Clean(book, headers, url, tip, start) {
      forall i | 0 <= i < |collected| ensures collected[i] == direct[i] { assert start + i <= tip.height; }
    }
  }

  /** A coherent cache anchored at the collection's tip is clean. */
  lemma CoherentIsClean(book: Book, headers: map<(Url, nat), Header>, tips: map<Url, Tip>, url: Url, tip: Tip,
                        start: nat)
    requires Coherent(book, headers, tips, url) && url in tips && tips[url] == tip
    ensures Clean(book, headers, url, tip, start)
  {
  }

  /** Whatever is new in the cache is the source's, lies at or below the tip, and was read in this session. */
  ghost predicate FromSession(book: Book, rpc: Session, url: Url, tip: Tip, before: map<(Url, nat), Header>,
                              after: map<(Url, nat), Header>)
  {
    forall k: (Url, nat) :: k in after ==>
      || (k in before && after[k] == before[k])
      || (k.0 == url && k.1 <= tip.height && ReadIn(book, rpc, k.1, after[k]))
  }

  lemma FromSessionOn(book: Book, rpc: Session, url: Url, tip: Tip, a: map<(Url, nat), Header>,
                      b: map<(Url, nat), Header>, c: map<(Url, nat), Header>)
    requires FromSession(book, rpc, url, tip, a, b) && FromSession(book, rpc, url, tip, b, c)
    ensures FromSession(book, rpc, url, tip, a, c)
  {
  }

  /** A collection from one source leaves the headers of every other source as they were, or drops them. */
  lemma OthersKept(book: Book, rpc: Session, url: Url, tip: Tip, before: map<(Url, nat), Header>,
                   after: map<(Url, nat), Header>, tips: map<Url, Tip>, other: Url)
    requires FromSession(book, rpc, url, tip, before, after) && other != url
    requires Coherent(book, before, tips, other)
    ensures Coherent(book, after, NextTips(tips, rpc, url, tip), other)
  {
  }

  /** The source's entries from `number` on are as before. */
  ghost predicate SameFrom(before: map<(Url, nat), Header>, after: map<(Url, nat), Header>, url: Url, number: nat)
  {
    forall n: nat :: n >= number ==>
      && ((url, n) in after <==> (url, n) in before)
      && ((url, n) in after ==> after[(url, n)] == before[(url, n)])
  }

  /** The source's headers of start..stop-1 are cached. */
  ghost predicate Holds(headers: map<(Url, nat), Header>, url: Url, start: nat, stop: nat)
  {
    forall n: nat :: start <= n < stop ==> (url, n) in headers
  }

  lemma WindowOn(a: map<(Url, nat), Header>, b: map<(Url, nat), Header>, c: map<(Url, nat), Header>, url: Url,
                 start: nat, number: nat)
    requires Holds(b, url, start, number) && SameFrom(a, b, url, number) && SameFrom(b, c, url, number + 1)
    requires forall k: (Url, nat) :: k in b ==> k in c
    ensures SameFrom(a, c, url, number + 1)
    ensures (url, number) in c ==> Holds(c, url, start, number + 1)
  {
  }

  /** The collected headers are what a pinned collection returns, as far as it has got. */
  ghost predicate MixedSoFar(book: Book, rpc: Session, headers: map<(Url, nat), Header>, url: Url, tip: Tip, start: nat,
                             collected: seq<Header>)
  {
    start + |collected| <= |rpc.view(0)| && forall i :: 0 <= i < |collected| ==>
      collected[i] == Mixed(book, rpc.view(0), headers, url, tip, start + i)
  }

  /** The newest three headers are read anew; below them a cached header is served and a missing one is read. */
  ghost predicate FreshNearTip(book: Book, rpc: Session, headers: map<(Url, nat), Header>, url: Url, tip: Tip,
                               start: nat, collected: seq<Header>)
  {
    forall i :: 0 <= i < |collected| ==>
      if tip.height <= start + i + 2 || (url, start + i) !in headers then ReadIn(book, rpc, start + i, collected[i])
      else collected[i] == headers[(url, start + i)]
  }

  lemma MixedOn(book: Book, rpc: Session, headers: map<(Url, nat), Header>, url: Url, tip: Tip, start: nat,
                collected: seq<Header>, header: Header)
    requires MixedSoFar(book, rpc, headers, url, tip, start, collected) && start + |collected| < |rpc.view(0)|
    requires header == Mixed(book, rpc.view(0), headers, url, tip, start + |collected|)
    ensures MixedSoFar(book, rpc, headers, url, tip, start, collected + [header])
  {
  }

  /**
   * A pinned collection answers when no call fails, and its answer is the uncached read if and only if
   * what it serves from the cache is clean.
   */
  ghost predicate AnswersExactly(book: Book, rpc: Session, found: map<(Url, nat), Header>, url: Url, tip: Tip,
                                 activation: nat, r: Answer)
    requires rpc.Pinned(book, tip.height, tip.hash)
  {
    && (rpc.AlwaysUp() ==> r.Ok?)
    && (r.Ok? ==>
          && (r.value == DirectRead(book, rpc.view(0), WindowStart(activation, tip.height), tip.height) <==>
              Clean(book, found, url, tip, WindowStart(activation, tip.height)))
          && (Recent(book, tip, activation, r.value) <==>
              Clean(book, found, url, tip, WindowStart(activation, tip.height))))
  }

  class ActivationHeaders {
    var headers: map<(Url, nat), Header>
    var lastTips: map<Url, Tip>

    /** What is cached for the source can be served under its recorded tip. */
    ghost predicate Valid(book: Book, url: Url)
      reads this
    {
      Coherent(book, headers, lastTips, url)
    }

    constructor ()
      ensures headers == map[] && lastTips == map[]
    {
      headers, lastTips := map[], map[];
    }

    /** `select` forgets every cached observation of the previous network. */
    method Clear()
      modifies this
      ensures headers == map[] && lastTips == map[]
    {
      headers, lastTips := map[], map[];
    }

    /** Drop the cache unless the tip last seen at `url` is still on its chain, then anchor at `tip`. */
    method Anchor(book: Book, rpc: Session, url: Url, tip: Tip) returns (ok: bool, t: nat)
      modifies this
      ensures ok <==> !Unanswered(old(lastTips), rpc, url, tip)
      ensures lastTips == if ok then old(lastTips)[url := tip] else old(lastTips)
      ensures headers == Survivors(old(headers), old(lastTips), rpc, url, tip)
      ensures rpc.Pinned(book, tip.height, tip.hash) && ok && old(Valid(book, url)) ==> Valid(book, url)
      ensures url !in old(lastTips) ==> ok && t == 0 && headers == old(headers)
      ensures url in old(lastTips) ==>
        var last := old(lastTips)[url];
        && (!ok <==> last.height <= tip.height && rpc.HashAt(0, last.height) == None)
        && (headers == if last.height > tip.height || rpc.HashAt(0, last.height) !in {None, Some(last.hash)} then map[]
                       else old(headers))
        && t == if last.height > tip.height then 0 else 1
    {
      t := 0;
      ghost var good := Valid(book, url) && rpc.Pinned(book, tip.height, tip.hash);
      if url in lastTips {
        var previous := lastTips[url];
        if previous.height > tip.height {
          headers := map[];
        } else {
          if good { PinnedRead(book, rpc, tip.height, tip.hash, t, previous.height); }
          var hash := rpc.HashAt(t, previous.height);
          t := t + 1;
          if hash.None? { return false, t; }
          if hash.value != previous.hash { headers := map[]; }
        }
      }
      if good && headers != map[] {
        CoherentExtend(book, headers, lastTips, url, rpc.view(0), tip);
      }
      lastTips := lastTips[url := tip];
      ok := true;
    }

    /** Make sure one header is cached, rereading it when `refresh` asks for it. */
    method Fetch(book: Book, rpc: Session, url: Url, number: nat, refresh: bool, calls: nat)
      returns (ok: bool, t: nat)
      modifies this`headers
      ensures rpc.AlwaysUp() && number < |rpc.view(calls)| ==> ok
      ensures !ok ==> headers == old(headers)
      ensures ok ==> (url, number) in headers
      ensures ok && ((url, number) !in old(headers) || refresh) ==>
        && number < |rpc.view(calls)|
        && headers == old(headers)[(url, number) := book(rpc.view(calls)[number])]
      ensures (url, number) in old(headers) && !refresh ==> headers == old(headers) && ok && t == calls
      ensures (url, number) !in old(headers) || refresh ==>
        && (ok <==> rpc.HashAt(calls, number).Some? && rpc.up(calls + 1))
        && (ok ==> t == calls + 2)
    {
      t := calls;
      if (url, number) !in headers || refresh {
        var hash := rpc.HashAt(t, number);
        if hash.None? || !rpc.up(t + 1) { return false, t; }
        headers := headers[(url, number) := book(hash.value)];
        t := t + 2;
      }
      ok := true;
    }

    /** The header of one height for a collection at `tip`: cached, or read again near the tip. */
    method HeaderAt(book: Book, rpc: Session, url: Url, tip: Tip, number: nat, calls: nat)
      returns (header: Option<Header>, t: nat)
      requires number <= tip.height && url in lastTips && lastTips[url] == tip
      modifies this`headers
      ensures rpc.AlwaysUp() && rpc.Reaches(tip.height) ==> header.Some?
      ensures FromSession(book, rpc, url, tip, old(headers), headers)
      ensures SameFrom(old(headers), headers, url, number + 1)
      ensures forall k :: k in old(headers) ==> k in headers
      ensures header.Some? ==> (url, number) in headers
      ensures rpc.Pinned(book, tip.height, tip.hash) && old(Valid(book, url)) ==> Valid(book, url)
      ensures rpc.Pinned(book, tip.height, tip.hash) && header.Some? ==>
        number < |rpc.view(0)| && header.value == Mixed(book, rpc.view(0), old(headers), url, tip, number)
      ensures header.Some? ==>
        if tip.height <= number + 2 || (url, number) !in old(headers) then ReadIn(book, rpc, number, header.value)
        else header.value == old(headers)[(url, number)]
    {
      ghost var pinned, view := rpc.Pinned(book, tip.height, tip.hash), rpc.view(calls);
      if pinned { PinnedRead(book, rpc, tip.height, tip.hash, calls, number); }
      var ok, next := Fetch(book, rpc, url, number, number >= tip.height - 2, calls);
      if !ok { return None, next; }
      if headers != old(headers) {
        assert ReadIn(book, rpc, number, book(view[number]));
        if pinned && Coherent(book, old(headers), lastTips, url) {
          CoherentAdd(book, old(headers), lastTips, url, number, book(view[number]));
        }
      }
      header, t := Some(headers[(url, number)]), next;
    }

    /** Read the headers start..tip that are not cached, and always the newest three. */
    method Gather(book: Book, rpc: Session, url: Url, tip: Tip, start: nat, calls: nat)
      returns (r: Option<seq<Header>>, t: nat)
      requires start <= tip.height && url in lastTips && lastTips[url] == tip
      modifies this`headers
      ensures rpc.AlwaysUp() && rpc.Reaches(tip.height) ==> r.Some?
      ensures r.Some? ==> Holds(headers, url, start, tip.height + 1)
      ensures FromSession(book, rpc, url, tip, old(headers), headers)
      ensures rpc.Pinned(book, tip.height, tip.hash) && old(Valid(book, url)) ==> Valid(book, url)
      ensures r.Some? ==> |r.value| == tip.height + 1 - start
      ensures rpc.Pinned(book, tip.height, tip.hash) && r.Some? ==>
        MixedSoFar(book, rpc, old(headers), url, tip, start, r.value)
      ensures r.Some? ==> FreshNearTip(book, rpc, old(headers), url, tip, start, r.value)
    {
      t := calls;
      ghost var pinned := rpc.Pinned(book, tip.height, tip.hash);
      var collected, number := [], start;
      while number <= tip.height
        invariant start <= number <= tip.height + 1 && |collected| == number - start
        invariant pinned && old(Valid(book, url)) ==> Valid(book, url)
        invariant Holds(headers, url, start, number) && SameFrom(old(headers), headers, url, number)
        invariant FromSession(book, rpc, url, tip, old(headers), headers)
        invariant pinned ==> MixedSoFar(book, rpc, old(headers), url, tip, start, collected)
        invariant FreshNearTip(book, rpc, old(headers), url, tip, start, collected)
      {
        ghost var before := headers;
        var header, next := HeaderAt(book, rpc, url, tip, number, t);
        FromSessionOn(book, rpc, url, tip, old(headers), before, headers);
        WindowOn(old(headers), before, headers, url, start, number);
        if header.None? { return None, t; }
        if pinned { MixedOn(book, rpc, old(headers), url, tip, start, collected, header.value); }
        collected, t := collected + [header.value], next;
        number := number + 1;
      }
      r := Some(collected);
    }

    /** Before publishing, the source must still hold the sampled block. */
    static method Confirm(rpc: Session, tip: Tip, calls: nat) returns (ok: bool)
      ensures ok <==>
        && rpc.up(calls) && tip.height <= |rpc.view(calls)| - 1
        && rpc.HashAt(calls + 1, tip.height) == Some(tip.hash)
    {
      if !rpc.up(calls) || |rpc.view(calls)| <= tip.height { return false; }
      ok := rpc.HashAt(calls + 1, tip.height) == Some(tip.hash);
    }

    /** The header collection of `public_status`, for the primary `url` sampled at `tip`. */
    method Collect(book: Book, rpc: Session, url: Url, tip: Tip, activation: nat)
      returns (r: Answer)
      modifies this
      ensures lastTips == NextTips(old(lastTips), rpc, url, tip)
      ensures Unanswered(old(lastTips), rpc, url, tip) ==> r == Err(Unread) && headers == old(headers)
      ensures FromSession(book, rpc, url, tip, Survivors(old(headers), old(lastTips), rpc, url, tip), headers)
      ensures rpc.AlwaysUp() && rpc.Reaches(tip.height) ==>
        r != Err(Unread) && Holds(headers, url, WindowStart(activation, tip.height), tip.height + 1)
      ensures r != Err(Unread) ==>
        forall k :: k in headers ==> k.0 == url && WindowStart(activation, tip.height) <= k.1
      ensures r.Ok? ==> exists t: nat :: rpc.HashAt(t, tip.height) == Some(tip.hash)
      ensures rpc.Pinned(book, tip.height, tip.hash) ==>
        && (old(Valid(book, url)) || Empties(old(lastTips), rpc, url, tip) ==> Valid(book, url))
        && AnswersExactly(book, rpc, Survivors(old(headers), old(lastTips), rpc, url, tip), url, tip, activation, r)
    {
      var start := WindowStart(activation, tip.height);
      var anchored, t := Anchor(book, rpc, url, tip);
      if !anchored { return Err(Unread); }
      ghost var found := headers;
      var collected, u := Gather(book, rpc, url, tip, start, t);
      if collected.None? { return Err(Unread); }
      headers := Within(headers, url, start);
      var confirmed := Confirm(rpc, tip, u);
      if !confirmed { return Err(Unconfirmed); }
      if rpc.Pinned(book, tip.height, tip.hash) {
        MixedIsDirect(book, rpc, found, url, tip, start, collected.value);
        DirectIsRecent(book, rpc, tip, activation, collected.value);
      }
      r := Ok(collected.value);
    }
  }

  function NextTips(tips: map<Url, Tip>, rpc: Session, url: Url, tip: Tip): map<Url, Tip>
  {
    if Unanswered(tips, rpc, url, tip) then tips else tips[url := tip]
  }

  /** The source's headers of the window, which is all a collection leaves in the cache. */
  function Within(headers: map<(Url, nat), Header>, url: Url, start: nat): (kept: map<(Url, nat), Header>)
    ensures forall k :: k in kept <==> k in headers && k.0 == url && k.1 >= start
    ensures forall k :: k in kept ==> kept[k] == headers[k]
  {
    map k | k in headers && k.0 == url && k.1 >= start :: headers[k]
  }

  // ---- whole runs ----

  /** What can happen to the cache: a collection from some primary, or a new network selection. */
  datatype Poll =
    | Collection(rpc: Session, url: Url, tip: Tip, activation: nat)
    | Selection
  {
    ghost predicate Steady(book: Book) {
      Collection? ==> rpc.Pinned(book, tip.height, tip.hash)
    }
  }

  /** The tips on record after the polls. */
  function Recorded(polls: seq<Poll>): map<Url, Tip>
  {
    if polls == [] then map[]
    else
      match polls[|polls| - 1]
      case Selection => map[]
      case Collection(rpc, url, tip, _) => NextTips(Recorded(polls[..|polls| - 1]), rpc, url, tip)
  }

  type Results = seq<Answer>

  /**
   * Nothing is cached for the source but what its own collections stored while their chain kept the
   * sampled tip. A collection that could not read the recorded tip's height stored nothing. One from
   * another source stores nothing for this one: it leaves the headers alone, or drops them when it empties
   * the cache or has read its window.
   */
  ghost predicate Undisturbed(book: Book, polls: seq<Poll>, results: Results, url: Url)
    requires |results| == |polls|
  {
    polls == []
    || var n := |polls| - 1;
       var before, earlier := polls[..n], results[..n];
       match polls[n]
       case Selection => true
       case Collection(rpc, u, tip, _) =>
         var empties := Empties(Recorded(before), rpc, u, tip);
         if Unanswered(Recorded(before), rpc, u, tip) then Undisturbed(book, before, earlier, url)
         else if u == url then polls[n].Steady(book) && (empties || Undisturbed(book, before, earlier, url))
         else empties || results[n] != Err(Unread) || Undisturbed(book, before, earlier, url)
  }

  /** The poll after these collects from a steady chain, with nothing disturbed cached for its source. */
  ghost predicate Trusted(book: Book, before: seq<Poll>, results: Results, poll: Poll)
    requires |results| == |before|
  {
    && poll.Collection? && poll.Steady(book)
    && (Empties(Recorded(before), poll.rpc, poll.url, poll.tip) || Undisturbed(book, before, results, poll.url))
  }

  /** A source that has not been collected from since the last selection is undisturbed, whatever others did. */
  lemma {:induction false} NewPrimary(book: Book, polls: seq<Poll>, results: Results, url: Url)
    requires |results| == |polls|
    requires forall i :: 0 <= i < |polls| && polls[i].Collection? && polls[i].url == url ==>
      exists j :: i < j < |polls| && polls[j].Selection?
    ensures Undisturbed(book, polls, results, url)
  {
    if polls != [] && polls[|polls| - 1].Collection? {
      var n := |polls| - 1;
      forall i | 0 <= i < n && polls[..n][i].Collection? && polls[..n][i].url == url
        ensures exists j :: i < j < n && polls[..n][j].Selection?
      {
        var j :| i < j < |polls| && polls[j].Selection?;
        assert polls[..n][j].Selection?;
      }
      NewPrimary(book, polls[..n], results[..n], url);
    }
  }

  /** A collection from a coherent cache, or one it empties first, is the uncached read. */
  lemma TrustedIsDirect(book: Book, rpc: Session, headers: map<(Url, nat), Header>, tips: map<Url, Tip>, url: Url,
                        tip: Tip, activation: nat, r: Answer)
    requires rpc.Pinned(book, tip.height, tip.hash)
    requires Empties(tips, rpc, url, tip) || Coherent(book, headers, tips, url)
    requires Unanswered(tips, rpc, url, tip) ==> r.Err?
    requires AnswersExactly(book, rpc, Survivors(headers, tips, rpc, url, tip), url, tip, activation, r)
    ensures Direct(book, rpc, tip, activation, r)
  {
    if !Empties(tips, rpc, url, tip) && !Unanswered(tips, rpc, url, tip) {
      if url in tips { PinnedRead(book, rpc, tip.height, tip.hash, 0, tips[url].height); }
      CoherentExtend(book, headers, tips, url, rpc.view(0), tip);
      CoherentIsClean(book, headers, tips[url := tip], url, tip, WindowStart(activation, tip.height));
    }
  }

  /** Every source with nothing disturbed cached has a coherent cache. */
  ghost predicate Tended(book: Book, headers: map<(Url, nat), Header>, polls: seq<Poll>, results: Results)
    requires |results| == |polls|
  {
    forall url :: Undisturbed(book, polls, results, url) ==> Coherent(book, headers, Recorded(polls), url)
  }

  /** What a collection from `url` leaves behind for every source. */
  lemma CollectionTends(book: Book, before: seq<Poll>, results: Results, poll: Poll, r: Answer,
                        headers: map<(Url, nat), Header>, after: map<(Url, nat), Header>)
    requires |results| == |before| && Tended(book, headers, before, results) && poll.Collection?
    requires Unanswered(Recorded(before), poll.rpc, poll.url, poll.tip) ==> after == headers
    requires FromSession(book, poll.rpc, poll.url, poll.tip,
                         Survivors(headers, Recorded(before), poll.rpc, poll.url, poll.tip), after)
    requires r != Err(Unread) ==> forall k: (Url, nat) :: k in after ==> k.0 == poll.url
    requires poll.Steady(book) && (Coherent(book, headers, Recorded(before), poll.url) ||
                                   Empties(Recorded(before), poll.rpc, poll.url, poll.tip)) ==>
      Coherent(book, after, Recorded(before + [poll]), poll.url)
    ensures Tended(book, after, before + [poll], results + [r])
  {
    assert (before + [poll])[..|before|] == before && (results + [r])[..|results|] == results;
    var found := Survivors(headers, Recorded(before), poll.rpc, poll.url, poll.tip);
    forall url | Undisturbed(book, before + [poll], results + [r], url)
      ensures Coherent(book, after, Recorded(before + [poll]), url)
    {
      if url != poll.url && Coherent(book, found, Recorded(before), url) {
        OthersKept(book, poll.rpc, poll.url, poll.tip, found, after, Recorded(before), url);
      }
    }
  }

  /** One poll of a run. */
  method PollOnce(book: Book, feed: ActivationHeaders, ghost before: seq<Poll>, ghost results: Results, poll: Poll)
    returns (r: Answer)
    requires |results| == |before|
    requires feed.lastTips == Recorded(before) && Tended(book, feed.headers, before, results)
    modifies feed
    ensures feed.lastTips == Recorded(before + [poll]) && Tended(book, feed.headers, before + [poll], results + [r])
    ensures Trusted(book, before, results, poll) ==> Direct(book, poll.rpc, poll.tip, poll.activation, r)
  {
    assert (before + [poll])[..|before|] == before;
    match poll
    case Selection =>
      feed.Clear();
      r := Err(Unread);
    case Collection(rpc, url, tip, activation) =>
      ghost var headers := feed.headers;
      r := feed.Collect(book, rpc, url, tip, activation);
      CollectionTends(book, before, results, poll, r, headers, feed.headers);
      if Trusted(book, before, results, poll) {
        TrustedIsDirect(book, rpc, headers, Recorded(before), url, tip, activation, r);
      }
  }

  /**
   * Over any run of polls, with the chains free to reorganise between and during them, the primary free to
   * change, and any read free to fail, a collection whose chain keeps the sampled tip equals the uncached
   * read whenever those whose headers it could be served did too.
   */
  method RunPolls(book: Book, polls: seq<Poll>) returns (results: Results)
    ensures |results| == |polls|
    ensures forall i :: 0 <= i < |polls| && Trusted(book, polls[..i], results[..i], polls[i]) ==>
      Direct(book, polls[i].rpc, polls[i].tip, polls[i].activation, results[i])
  {
    var feed := new ActivationHeaders();
    results := [];
    for i := 0 to |polls|
      invariant fresh(feed) && feed.lastTips == Recorded(polls[..i]) && |results| == i
      invariant Tended(book, feed.headers, polls[..i], results)
      invariant forall j :: 0 <= j < i && Trusted(book, polls[..j], results[..j], polls[j]) ==>
        Direct(book, polls[j].rpc, polls[j].tip, polls[j].activation, results[j])
    {
      var r := PollOnce(book, feed, polls[..i], results, polls[i]);
      assert polls[..i + 1] == polls[..i] + [polls[i]];
      forall j | 0 <= j <= i ensures (results + [r])[..j] == results[..j] { }
      assert results[..i] == results;
      results := results + [r];
    }
  }

  // ---- an interrupted collection can leave stale headers behind ----

  /** The headers at `number` are what the branch holds, under a tip of another chain. */
  lemma StaleIsNotClean(book: Book, headers: map<(Url, nat), Header>, url: Url, tip: Tip, start: nat, number: nat,
                        view: View, branch: View)
    requires Linked(book, view) && Linked(book, branch) && tip.height < |view| && view[tip.height] == tip.hash
    requires start <= number < |branch| && Served(headers, url, tip, number)
    requires headers[(url, number)] == book(branch[number]) && view[number] != branch[number]
    ensures !Clean(book, headers, url, tip, start)
  {
    ViewAncestor(book, view, tip.height, number);
    assert book(view[number]).hash != book(branch[number]).hash;
  }

  /** Collecting under a tip of one chain while the source stands on another stores the other's headers. */
  method CollectAway(book: Book, feed: ActivationHeaders, away: Session, branch: View, url: Url, tip: Tip,
                     activation: nat)
    returns (r: Answer)
    requires away.Stands(branch) && tip.height < |branch| && branch[tip.height] != tip.hash
    requires feed.headers == map[] && feed.lastTips == map[]
    modifies feed
    ensures r == Err(Unconfirmed) && feed.lastTips == map[url := tip]
    ensures forall n: nat :: WindowStart(activation, tip.height) <= n <= tip.height ==>
      (url, n) in feed.headers && feed.headers[(url, n)] == book(branch[n])
  {
    r := feed.Collect(book, away, url, tip, activation);
    assert r.Err? && r.error.Unconfirmed?;
    forall n: nat | WindowStart(activation, tip.height) <= n <= tip.height
      ensures feed.headers[(url, n)] == book(branch[n])
    {
      assert ReadIn(book, away, n, feed.headers[(url, n)]);
    }
  }

  /**
   * A tip sampled on one branch, collected while the source stands on another, stores the other branch's
   * headers under that tip and is then refused. Back on the first branch, the tip is found again, nothing
   * is dropped, and a collection whose chain keeps the sampled tip serves them: it is not the uncached
   * read, for any two branches that differ within both windows below the newest three blocks.
   */
  method StaleAfterInterruption(book: Book, away: Session, branch: View, back: Session, url: Url, tip: Tip, later: Tip,
                                activation: nat, number: nat)
    returns (refused: Answer, served: Answer)
    requires Linked(book, branch) && away.Stands(branch) && tip.height < |branch|
    requires back.Pinned(book, later.height, later.hash) && back.AlwaysUp()
    requires tip.height <= later.height < |back.view(0)| && back.view(0)[tip.height] == tip.hash
    requires WindowStart(activation, tip.height) <= number <= tip.height
    requires WindowStart(activation, later.height) <= number < later.height - 2
    requires back.view(0)[number] != branch[number]
    ensures refused == Err(Unconfirmed) && served.Ok?
    ensures served.value != DirectRead(book, back.view(0), WindowStart(activation, later.height), later.height)
  {
    var feed := new ActivationHeaders();
    if branch[tip.height] == tip.hash {
      ViewAncestor(book, back.view(0), tip.height, number);
      ViewAncestor(book, branch, tip.height, number);
    }
    refused := CollectAway(book, feed, away, branch, url, tip, activation);
    StaleIsNotClean(book, feed.headers, url, later, WindowStart(activation, later.height), number, back.view(0),
                    branch);
    served := feed.Collect(book, back, url, later, activation);
  }

  /** Such an interruption on two branches of n blocks: a tip sampled on one, collected on the other. */
  method InterruptedPoll(n: nat, url: Url) returns (served: Answer)
    requires 4 <= n <= 300
    ensures served.Ok? && served.value != DirectRead(Spelled(), Branch('a', n), 0, n)
  {
    var view, branch := Branch('a', n), Branch('b', n);
    BranchLinked('a', n);
    BranchLinked('b', n);
    StillStands(Spelled(), view, n);
    StillStands(Spelled(), branch, n);
    assert view[1][1] == 'a' && branch[1][1] == 'b';
    var tip, refused := Tip(n - 1, view[n - 1]), Err(Unread);
    var later := Tip(n, view[n]);
    refused, served := StaleAfterInterruption(Spelled(), Still(branch), branch, Still(view), url, tip, later, 0, 1);
  }
}

/**
 * RPC sessions: what the calls of one collection see of a source's chain, and what an uncached read of
 * its headers would return.
 */
module Sessions {
  import opened Prelude
  import opened Chain

  /** One collection's RPC session: call number t sees `view(t)`, or raises when `up(t)` is false. */
  datatype Session = Session(view: nat -> View, up: nat -> bool) {

    /** getblockhash; a missing height is an RPC error. */
    function HashAt(t: nat, number: nat): Option<Hash> {
      if up(t) && number < |view(t)| then Some(view(t)[number]) else None
    }

    /** The chain may grow or change above `height`, but keeps `tip` at `height` throughout. */
    ghost predicate Pinned(book: Book, height: nat, tip: Hash) {
      forall t: nat {:trigger view(t)} ::
        Linked(book, view(t)) && height < |view(t)| && view(t)[height] == tip
    }

    /** Every call sees a chain that reaches `height`. */
    ghost predicate Reaches(height: nat) { forall t: nat {:trigger view(t)} :: height < |view(t)| }

    /** Every call is answered, from one chain. */
    ghost predicate Stands(chain: View)
    {
      forall t: nat {:trigger view(t)} {:trigger up(t)} :: view(t) == chain && up(t)
    }

    ghost predicate AlwaysUp() { forall t: nat {:trigger up(t)} :: up(t) }
  }

  /** A pinned session answers every read at or below the pinned height from one chain. */
  lemma PinnedRead(book: Book, rpc: Session, height: nat, tip: Hash, t: nat, number: nat)
    requires rpc.Pinned(book, height, tip) && number <= height
    ensures number < |rpc.view(t)| && rpc.view(t)[number] == rpc.view(0)[number]
    ensures rpc.view(t)[number] == Ancestor(book, tip, height - number)
  {
    ViewAncestor(book, rpc.view(t), height, number);
    ViewAncestor(book, rpc.view(0), height, number);
  }

  /** The block `depth` below a tip is the tip, or one of the 300 before it and at or above activation. */
  predicate InWindow(activation: nat, height: nat, depth: nat)
  {
    depth == 0 || (depth <= 300 && activation <= height - depth)
  }

  function WindowStart(activation: nat, height: nat): (start: nat)
    ensures start <= height
    ensures forall depth: nat :: InWindow(activation, height, depth) <==> depth <= height - start
  {
    Max(Min(activation, height), height - 300)
  }

  datatype Tip = Tip(height: nat, hash: Hash)

  /** The header was read in this session, at its own height. */
  ghost predicate ReadIn(book: Book, rpc: Session, number: nat, header: Header)
  {
    exists t: nat :: number < |rpc.view(t)| && header == book(rpc.view(t)[number])
  }

  /** The headers are those of the window's blocks, by descent from the tip alone, and of no others. */
  ghost predicate Recent(book: Book, tip: Tip, activation: nat, headers: seq<Header>)
  {
    && headers != []
    && (forall depth: nat :: InWindow(activation, tip.height, depth) <==> depth < |headers|)
    && (forall depth: nat {:trigger Ancestor(book, tip.hash, depth)} :: depth < |headers| ==>
          headers[|headers| - 1 - depth] == book(Ancestor(book, tip.hash, depth)))
  }

  /** On a chain that keeps the tip, the uncached read of the window is what the tip's descent calls for. */
  lemma DirectIsRecent(book: Book, rpc: Session, tip: Tip, activation: nat, headers: seq<Header>)
    requires rpc.Pinned(book, tip.height, tip.hash) && tip.height < |rpc.view(0)|
    ensures headers == DirectRead(book, rpc.view(0), WindowStart(activation, tip.height), tip.height) <==>
      Recent(book, tip, activation, headers)
  {
    var start := WindowStart(activation, tip.height);
    var direct := DirectRead(book, rpc.view(0), start, tip.height);
    assert |direct| == tip.height - start + 1;
    forall depth: nat | depth < |direct|
      ensures direct[|direct| - 1 - depth] == book(Ancestor(book, tip.hash, depth))
    {
      PinnedRead(book, rpc, tip.height, tip.hash, 0, tip.height - depth);
    }
    if Recent(book, tip, activation, headers) { RecentUnique(book, tip, activation, headers, direct); }
  }

  lemma RecentUnique(book: Book, tip: Tip, activation: nat, a: seq<Header>, b: seq<Header>)
    requires Recent(book, tip, activation, a) && Recent(book, tip, activation, b)
    ensures a == b
  {
    assert |a| == |b| by {
      assert InWindow(activation, tip.height, |a|) <==> |a| < |b|;
      assert InWindow(activation, tip.height, |b|) <==> |b| < |a|;
    }
    forall i | 0 <= i < |a| ensures a[i] == b[i] {
      assert a[|a| - 1 - (|a| - 1 - i)] == book(Ancestor(book, tip.hash, |a| - 1 - i));
      assert b[|b| - 1 - (|b| - 1 - i)] == book(Ancestor(book, tip.hash, |b| - 1 - i));
    }
  }

  /**
   * A collection's answer is the uncached read, which is what the tip's descent calls for, and there is an
   * answer when no call fails.
   */
  ghost predicate Direct<E>(book: Book, rpc: Session, tip: Tip, activation: nat, r: Result<seq<Header>, E>)
    requires rpc.Pinned(book, tip.height, tip.hash)
  {
    && (rpc.AlwaysUp() ==> r.Ok?)
    && (r.Ok? ==>
          && r.value == DirectRead(book, rpc.view(0), WindowStart(activation, tip.height), tip.height)
          && Recent(book, tip, activation, r.value))
  }

  /** A chain that keeps the sampled tip and only extends during the session is pinned. */
  lemma {:induction false} ExtensionPins(book: Book, rpc: Session, height: nat, tip: Hash)
    requires forall t: nat :: Linked(book, rpc.view(t)) && rpc.view(t) <= rpc.view(t + 1)
    requires height < |rpc.view(0)| && rpc.view(0)[height] == tip
    ensures rpc.Pinned(book, height, tip)
  {
    forall t: nat ensures Linked(book, rpc.view(t)) && height < |rpc.view(t)| && rpc.view(t)[height] == tip {
      ExtensionKeeps(rpc, height, t);
    }
  }

  lemma {:induction false} ExtensionKeeps(rpc: Session, height: nat, t: nat)
    requires forall u: nat :: rpc.view(u) <= rpc.view(u + 1)
    requires height < |rpc.view(0)|
    ensures height < |rpc.view(t)| && rpc.view(t)[height] == rpc.view(0)[height]
  {
    if t > 0 {
      ExtensionKeeps(rpc, height, t - 1);
      assert rpc.view(t - 1) <= rpc.view(t - 1 + 1);
    }
  }

  // ---- two branches of one chain ----

  /** Block names that spell out their branch: the parent of a block is its name without the last letter. */
  function Spelled(): Book
  {
    (hash: Hash) => Header(if hash == "" then 0 else |hash| - 1, hash, if hash == "" then "" else hash[..|hash| - 1], 0)
  }

  /** The genesis block and n blocks of the branch `c` on it. */
  function Branch(c: char, n: nat): (view: View)
    ensures |view| == n + 1 && view[0] == "g" && forall i :: 0 <= i <= n ==> |view[i]| == i + 1
    ensures forall i :: 0 < i <= n ==> view[i] == view[i - 1] + [c]
  {
    if n == 0 then ["g"] else Branch(c, n - 1) + [Branch(c, n - 1)[n - 1] + [c]]
  }

  lemma BranchLinked(c: char, n: nat)
    ensures Linked(Spelled(), Branch(c, n))
  {
  }

  /** A source that answers every call from one chain. */
  function Still(view: View): Session { Session((t: nat) => view, (t: nat) => true) }

  lemma StillStands(book: Book, view: View, height: nat)
    requires Linked(book, view) && height < |view|
    ensures Still(view).Stands(view) && Still(view).AlwaysUp() && Still(view).Pinned(book, height, view[height])
  {
  }
}

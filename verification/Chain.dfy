/** Block chains as the monitoring layer reads them: content-addressed headers linked by hash. */
module Chain {
  import opened Prelude

  type Hash = string

  datatype Header = Header(height: nat, hash: Hash, parent: Hash, time: int)

  /** The header a block hash names. That this is a function of the hash is collision-freeness. */
  type Book = Hash -> Header

  /** The hashes of one source's best chain, indexed by height. */
  type View = seq<Hash>

  ghost predicate Linked(book: Book, view: View)
  {
    && (forall i :: 0 <= i < |view| ==> book(view[i]).height == i && book(view[i]).hash == view[i])
    && (forall i :: 0 < i < |view| ==> book(view[i]).parent == view[i - 1])
  }

  ghost function Ancestor(book: Book, hash: Hash, depth: nat): Hash
    decreases depth
  {
    if depth == 0 then hash else Ancestor(book, book(hash).parent, depth - 1)
  }

  /** Below any block, a view is determined by that block's hash alone. */
  lemma {:induction false} ViewAncestor(book: Book, view: View, height: nat, number: nat)
    requires Linked(book, view) && number <= height < |view|
    ensures view[number] == Ancestor(book, view[height], height - number)
    decreases height
  {
    if number < height { ViewAncestor(book, view, height - 1, number); }
  }

  /** An uncached read of the headers numbered from..to on a view. */
  ghost function DirectRead(book: Book, view: View, from: nat, to: nat): seq<Header>
    requires from <= to < |view|
  {
    seq(to + 1 - from, i requires 0 <= i < to + 1 - from => book(view[from + i]))
  }
}

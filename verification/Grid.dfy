/**
 * The frontier grid container of the asset crate (`parse_grid`, `_build_grid`): a fixed header, a digest,
 * and `count` entries of one height and three length-prefixed blobs.
 */
module Grid {
  import opened Prelude

  type Byte = b: int | 0 <= b < 256

  type Bytes = seq<Byte>

  const U32_LIMIT := 0x1_0000_0000
  const PREFIX_LEN := 23
  const HEADER_LEN := 55
  const MAX_ENTRIES := 16_000_000
  const MIN_ENTRY_LEN := 16

  /** "ZKVCTFR1" */
  const MAGIC: Bytes := [90, 75, 86, 67, 84, 70, 82, 49]

  // ---- little-endian numbers ----

  function PackU32(n: int): (r: Bytes)
    requires 0 <= n < U32_LIMIT
    ensures |r| == 4
  {
    [n % 256, n / 256 % 256, n / 65536 % 256, n / 16777216]
  }

  function UnpackU32(b: Bytes): (n: int)
    requires |b| >= 4
    ensures 0 <= n < U32_LIMIT
  {
    var b0: int, b1: int, b2: int, b3: int := b[0], b[1], b[2], b[3];
    b0 + 256 * b1 + 65536 * b2 + 16777216 * b3
  }

  lemma UnpackPack(n: int, rest: Bytes)
    requires 0 <= n < U32_LIMIT
    ensures UnpackU32(PackU32(n) + rest) == n
  {
    var b := PackU32(n) + rest;
    assert b[0] == n % 256 && b[1] == n / 256 % 256 && b[2] == n / 65536 % 256 && b[3] == n / 16777216;
    assert n / 256 / 256 == n / 65536 && n / 65536 / 256 == n / 16777216;
  }

  lemma PackUnpack(b: Bytes)
    requires |b| >= 4
    ensures PackU32(UnpackU32(b)) == b[..4]
  {
    var b0: int, b1: int, b2: int, b3: int := b[0], b[1], b[2], b[3];
    var n := UnpackU32(b);
    var high := b1 + 256 * b2 + 65536 * b3;
    assert n == b0 + 256 * high;
    assert n % 256 == b0 && n / 256 == high;
    assert high == b1 + 256 * (b2 + 256 * b3);
    assert high % 256 == b1 && high / 256 == b2 + 256 * b3;
    assert n / 65536 == high / 256 && n / 16777216 == high / 256 / 256;
  }

  // ---- entries ----

  datatype Entry = Entry(height: int, first: Bytes, second: Bytes, third: Bytes)

  predicate Fits(e: Entry)
  {
    && 0 <= e.height < U32_LIMIT
    && |e.first| < U32_LIMIT && |e.second| < U32_LIMIT && |e.third| < U32_LIMIT
  }

  function EncodeBlob(b: Bytes): Bytes
    requires |b| < U32_LIMIT
  {
    PackU32(|b|) + b
  }

  function EncodeEntry(e: Entry): Bytes
    requires Fits(e)
  {
    PackU32(e.height) + EncodeBlob(e.first) + EncodeBlob(e.second) + EncodeBlob(e.third)
  }

  ghost predicate AllFit(es: seq<Entry>) { forall i :: 0 <= i < |es| ==> Fits(es[i]) }

  ghost function EncodeEntries(es: seq<Entry>): Bytes
    requires AllFit(es)
  {
    if es == [] then [] else EncodeEntry(es[0]) + EncodeEntries(es[1..])
  }

  // ---- the walk ----

  datatype Refusal = TooShort | NotAGrid | WrongVersion | WrongNetwork | ImpossibleCount | BadDigest
    | TooFewBytes | OutOfOrder | Truncated | Trailing | AboveCheckpoint
    | ShortRead  // the unguarded height read raises struct.error, not a refusal of its own

  /** Skip one length-prefixed blob: the bytes after it, or None when it is truncated. */
  function SkipBlob(p: Bytes): (r: Option<Bytes>)
    ensures r.Some? ==> |r.value| < |p|
  {
    if |p| < 4 || 4 + UnpackU32(p) > |p| then None else Some(p[4 + UnpackU32(p)..])
  }

  function SkipBlobs(p: Bytes, n: nat): (r: Option<Bytes>)
    ensures r.Some? ==> |r.value| <= |p|
  {
    if n == 0 then Some(p)
    else
      var rest := SkipBlob(p);
      if rest.None? then None else SkipBlobs(rest.value, n - 1)
  }

  /** What the walk over the remaining bytes concludes: the last height seen, or why it stops. */
  function Walk(p: Bytes, n: nat, previous: Option<int>): Result<Option<int>, Refusal>
    decreases n
  {
    if n == 0 then if p == [] then Ok(previous) else Err(Trailing)
    else if |p| < 4 then Err(ShortRead)
    else if previous.Some? && UnpackU32(p) <= previous.value then Err(OutOfOrder)
    else
      var rest := SkipBlobs(p[4..], 3);
      if rest.None? then Err(Truncated) else Walk(rest.value, n - 1, Some(UnpackU32(p)))
  }

  /** Heights increase strictly, starting above `previous`. */
  ghost predicate Rising(es: seq<Entry>, previous: Option<int>)
  {
    && (forall i, j :: 0 <= i < j < |es| ==> es[i].height < es[j].height)
    && (previous.Some? ==> forall i :: 0 <= i < |es| ==> previous.value < es[i].height)
  }

  lemma {:induction false} SkipBlobExact(p: Bytes, rest: Bytes)
    ensures SkipBlob(p) == Some(rest) ==> exists b: Bytes :: |b| < U32_LIMIT && p == EncodeBlob(b) + rest
  {
    if SkipBlob(p) == Some(rest) {
      var n := UnpackU32(p);
      var b := p[4..4 + n];
      PackUnpack(p);
      assert p == p[..4] + b + rest;
      assert p == EncodeBlob(b) + rest;
    }
  }

  lemma SkipBlobEncoded(b: Bytes, rest: Bytes)
    requires |b| < U32_LIMIT
    ensures SkipBlob(EncodeBlob(b) + rest) == Some(rest)
  {
    var p := EncodeBlob(b) + rest;
    assert p == PackU32(|b|) + (b + rest);
    UnpackPack(|b|, b + rest);
    assert p[4 + |b|..] == rest;
  }

  lemma SkipOne(p: Bytes) returns (b: Bytes)
    requires SkipBlob(p).Some?
    ensures |b| < U32_LIMIT && p == EncodeBlob(b) + SkipBlob(p).value
  {
    SkipBlobExact(p, SkipBlob(p).value);
    b :| |b| < U32_LIMIT && p == EncodeBlob(b) + SkipBlob(p).value;
  }

  lemma SkipStep(p: Bytes, n: nat)
    requires n > 0 && SkipBlobs(p, n).Some?
    ensures SkipBlob(p).Some? && SkipBlobs(p, n) == SkipBlobs(SkipBlob(p).value, n - 1)
  {
  }

  lemma SkipThree(p: Bytes) returns (a: Bytes, b: Bytes, c: Bytes)
    requires SkipBlobs(p, 3).Some?
    ensures |a| < U32_LIMIT && |b| < U32_LIMIT && |c| < U32_LIMIT
    ensures p == EncodeBlob(a) + (EncodeBlob(b) + (EncodeBlob(c) + SkipBlobs(p, 3).value))
  {
    SkipStep(p, 3);
    a := SkipOne(p);
    var p1 := SkipBlob(p).value;
    SkipStep(p1, 2);
    b := SkipOne(p1);
    var p2 := SkipBlob(p1).value;
    SkipStep(p2, 1);
    c := SkipOne(p2);
  }

  lemma SkipThreeEncoded(a: Bytes, b: Bytes, c: Bytes, rest: Bytes)
    requires |a| < U32_LIMIT && |b| < U32_LIMIT && |c| < U32_LIMIT
    ensures SkipBlobs(EncodeBlob(a) + (EncodeBlob(b) + (EncodeBlob(c) + rest)), 3) == Some(rest)
  {
    var p2 := EncodeBlob(c) + rest;
    var p1 := EncodeBlob(b) + p2;
    SkipBlobEncoded(a, p1);
    SkipBlobEncoded(b, p2);
    SkipBlobEncoded(c, rest);
    assert SkipBlobs(p2, 1) == Some(rest);
    assert SkipBlobs(p1, 2) == Some(rest);
  }

  lemma EntryLayout(e: Entry, rest: Bytes)
    requires Fits(e)
    ensures EncodeEntry(e) + rest ==
      PackU32(e.height) + (EncodeBlob(e.first) + (EncodeBlob(e.second) + (EncodeBlob(e.third) + rest)))
  {
  }

  /** An entry at the front is read back, whatever follows it. */
  lemma EntryFront(e: Entry, rest: Bytes)
    requires Fits(e)
    ensures |EncodeEntry(e) + rest| >= 16 + |rest|
    ensures UnpackU32(EncodeEntry(e) + rest) == e.height
    ensures SkipBlobs((EncodeEntry(e) + rest)[4..], 3) == Some(rest)
  {
    var blobs := EncodeBlob(e.first) + (EncodeBlob(e.second) + (EncodeBlob(e.third) + rest));
    EntryLayout(e, rest);
    UnpackPack(e.height, blobs);
    assert (PackU32(e.height) + blobs)[4..] == blobs;
    SkipThreeEncoded(e.first, e.second, e.third, rest);
  }

  /** What the walk steps over is an entry. */
  lemma EntryBehind(p: Bytes) returns (e: Entry)
    requires |p| >= 4 && SkipBlobs(p[4..], 3).Some?
    ensures Fits(e) && e.height == UnpackU32(p) && p == EncodeEntry(e) + SkipBlobs(p[4..], 3).value
  {
    var a, b, c := SkipThree(p[4..]);
    e := Entry(UnpackU32(p), a, b, c);
    PackUnpack(p);
    assert p == p[..4] + p[4..];
    EntryLayout(e, SkipBlobs(p[4..], 3).value);
  }

  /** The early check refuses nothing the walk would accept. */
  lemma {:induction false} MinimumLength(es: seq<Entry>)
    requires AllFit(es)
    ensures |EncodeEntries(es)| >= MIN_ENTRY_LEN * |es|
  {
    if es != [] {
      EntryFront(es[0], []);
      assert EncodeEntry(es[0]) + [] == EncodeEntry(es[0]);
      MinimumLength(es[1..]);
    }
  }

  ghost predicate Encodes(es: seq<Entry>, p: Bytes, n: nat, previous: Option<int>)
  {
    |es| == n && AllFit(es) && Rising(es, previous) && p == EncodeEntries(es)
  }

  function LastHeight(es: seq<Entry>, previous: Option<int>): Option<int>
  {
    if es == [] then previous else Some(es[|es| - 1].height)
  }

  /** Any valid encoding is accepted, and the walk ends at its last height. */
  lemma {:induction false} WalkAccepts(es: seq<Entry>, p: Bytes, n: nat, previous: Option<int>)
    requires Encodes(es, p, n, previous)
    ensures Walk(p, n, previous) == Ok(LastHeight(es, previous))
    decreases n
  {
    if n > 0 {
      EntryFront(es[0], EncodeEntries(es[1..]));
      WalkAccepts(es[1..], EncodeEntries(es[1..]), n - 1, Some(es[0].height));
    }
  }

  /** Whatever the walk accepts is a valid encoding. */
  lemma {:induction false} WalkSound(p: Bytes, n: nat, previous: Option<int>) returns (es: seq<Entry>)
    requires Walk(p, n, previous).Ok?
    ensures Encodes(es, p, n, previous)
    decreases n
  {
    if n == 0 {
      es := [];
    } else {
      var e := EntryBehind(p);
      var rest := SkipBlobs(p[4..], 3).value;
      var tail := WalkSound(rest, n - 1, Some(e.height));
      es := [e] + tail;
      assert es[1..] == tail;
    }
  }

  /** No two entry lists of one length encode to the same bytes. */
  lemma {:induction false} DecodingUnique(es: seq<Entry>, fs: seq<Entry>)
    requires |es| == |fs| && AllFit(es) && AllFit(fs) && EncodeEntries(es) == EncodeEntries(fs)
    ensures es == fs
  {
    if es != [] {
      var p := EncodeEntries(es);
      EntryFront(es[0], EncodeEntries(es[1..]));
      EntryFront(fs[0], EncodeEntries(fs[1..]));
      DecodingUnique(es[1..], fs[1..]);
      EntryInjective(es[0], fs[0], EncodeEntries(es[1..]));
      assert es == [es[0]] + es[1..] && fs == [fs[0]] + fs[1..];
    }
  }

  lemma BlobInjective(a: Bytes, b: Bytes, x: Bytes, y: Bytes)
    requires |a| < U32_LIMIT && |b| < U32_LIMIT && EncodeBlob(a) + x == EncodeBlob(b) + y
    ensures a == b && x == y
  {
    var p := EncodeBlob(a) + x;
    assert p == PackU32(|a|) + (a + x) && p == PackU32(|b|) + (b + y);
    UnpackPack(|a|, a + x);
    UnpackPack(|b|, b + y);
    assert a == p[4..4 + |a|] && b == p[4..4 + |b|];
    assert x == p[4 + |a|..] && y == p[4 + |b|..];
  }

  lemma {:induction false} BlobsInjective(a: Bytes, b: Bytes, c: Bytes, x: Bytes, y: Bytes, z: Bytes, rest: Bytes)
    requires |a| < U32_LIMIT && |b| < U32_LIMIT && |c| < U32_LIMIT
    requires |x| < U32_LIMIT && |y| < U32_LIMIT && |z| < U32_LIMIT
    requires EncodeBlob(a) + (EncodeBlob(b) + (EncodeBlob(c) + rest)) ==
      EncodeBlob(x) + (EncodeBlob(y) + (EncodeBlob(z) + rest))
    ensures a == x && b == y && c == z
  {
    var cr, zr := EncodeBlob(c) + rest, EncodeBlob(z) + rest;
    BlobInjective(a, x, EncodeBlob(b) + cr, EncodeBlob(y) + zr);
    BlobInjective(b, y, cr, zr);
    BlobInjective(c, z, rest, rest);
  }

  lemma EntryInjective(e: Entry, f: Entry, rest: Bytes)
    requires Fits(e) && Fits(f) && EncodeEntry(e) + rest == EncodeEntry(f) + rest
    ensures e == f
  {
    EntryFront(e, rest);
    EntryFront(f, rest);
    EntryLayout(e, rest);
    EntryLayout(f, rest);
    var p := EncodeEntry(e) + rest;
    assert p[4..] == EncodeBlob(e.first) + (EncodeBlob(e.second) + (EncodeBlob(e.third) + rest));
    assert p[4..] == EncodeBlob(f.first) + (EncodeBlob(f.second) + (EncodeBlob(f.third) + rest));
    BlobsInjective(e.first, e.second, e.third, f.first, f.second, f.third, rest);
  }

  ghost predicate RunsOut(es: seq<Entry>, rest: Bytes, p: Bytes, n: nat, previous: Option<int>)
  {
    |es| < n && AllFit(es) && Rising(es, previous) && p == EncodeEntries(es) + rest && |rest| < 4
  }

  lemma EntriesCons(e: Entry, tail: seq<Entry>, rest: Bytes)
    requires Fits(e) && AllFit(tail)
    ensures AllFit([e] + tail)
    ensures EncodeEntries([e] + tail) + rest == EncodeEntry(e) + (EncodeEntries(tail) + rest)
  {
    assert ([e] + tail)[1..] == tail;
  }

  lemma {:induction false} ShortReadSound(p: Bytes, n: nat, previous: Option<int>)
    returns (es: seq<Entry>, rest: Bytes)
    requires Walk(p, n, previous) == Err(ShortRead)
    ensures RunsOut(es, rest, p, n, previous)
    decreases n
  {
    if |p| < 4 {
      es, rest := [], p;
    } else {
      var e := EntryBehind(p);
      var q := SkipBlobs(p[4..], 3).value;
      var tail;
      tail, rest := ShortReadSound(q, n - 1, Some(e.height));
      es := [e] + tail;
      EntriesCons(e, tail, rest);
    }
  }

  lemma {:induction false} ShortReadComplete(es: seq<Entry>, rest: Bytes, p: Bytes, n: nat, previous: Option<int>)
    requires RunsOut(es, rest, p, n, previous)
    ensures Walk(p, n, previous) == Err(ShortRead)
    decreases n
  {
    if es == [] {
      assert p == rest;
    } else {
      var q := EncodeEntries(es[1..]) + rest;
      assert p == EncodeEntry(es[0]) + q;
      EntryFront(es[0], q);
      ShortReadComplete(es[1..], rest, q, n - 1, Some(es[0].height));
    }
  }

  /** A short read happens exactly when valid entries, fewer than declared, leave under four bytes. */
  lemma ShortReadExactly(p: Bytes, n: nat, previous: Option<int>)
    ensures Walk(p, n, previous) == Err(ShortRead) <==>
      exists es: seq<Entry>, rest: Bytes :: RunsOut(es, rest, p, n, previous)
  {
    if Walk(p, n, previous) == Err(ShortRead) {
      var es, rest := ShortReadSound(p, n, previous);
    }
    if es: seq<Entry>, rest: Bytes :| RunsOut(es, rest, p, n, previous) {
      ShortReadComplete(es, rest, p, n, previous);
    }
  }

  // ---- the methods ----

  /** The inner loop: step over the blobs that follow a height, one per pool. */
  method SkipPools(payload: Bytes, start: nat, pools: nat) returns (end: Option<nat>)
    requires start <= |payload|
    ensures end.None? <==> SkipBlobs(payload[start..], pools).None?
    ensures end.Some? ==> start <= end.value <= |payload|
    ensures end.Some? ==> SkipBlobs(payload[start..], pools) == Some(payload[end.value..])
  {
    var offset := start;
    for pool := 0 to pools
      invariant start <= offset <= |payload|
      invariant SkipBlobs(payload[start..], pools) == SkipBlobs(payload[offset..], pools - pool)
    {
      if offset + 4 > |payload| { return None; }
      var length := UnpackU32(payload[offset..]);
      if offset + 4 + length > |payload| { return None; }
      offset := offset + 4 + length;
    }
    end := Some(offset);
  }

  /** The nested loop of `parse_grid` over the payload. */
  method WalkPayload(payload: Bytes, count: nat) returns (r: Result<Option<int>, Refusal>)
    ensures r == Walk(payload, count, None)
  {
    var offset, previous := 0, None;
    assert payload[0..] == payload;
    for i := 0 to count
      invariant 0 <= offset <= |payload|
      invariant Walk(payload, count, None) == Walk(payload[offset..], count - i, previous)
    {
      if offset + 4 > |payload| { return Err(ShortRead); }
      var height := UnpackU32(payload[offset..]);
      assert payload[offset..][4..] == payload[offset + 4..];
      if previous.Some? && height <= previous.value { return Err(OutOfOrder); }
      var end := SkipPools(payload, offset + 4, 3);
      if end.None? { return Err(Truncated); }
      offset, previous := end.value, Some(height);
    }
    if offset != |payload| { return Err(Trailing); }
    r := Ok(previous);
  }

  // ---- the container ----

  type Digest = Bytes -> Bytes

  /** The header fields: magic, format version 1, the Mainnet tag, and three words. */
  function Prefix(spacing: int, lastCheckpoint: int, count: int): (r: Bytes)
    requires 0 <= spacing < U32_LIMIT && 0 <= lastCheckpoint < U32_LIMIT && 0 <= count < U32_LIMIT
    ensures |r| == PREFIX_LEN
  {
    MAGIC + [1, 0] + [1] + PackU32(spacing) + PackU32(lastCheckpoint) + PackU32(count)
  }

  function Assemble(prefix: Bytes, payload: Bytes, sha: Digest): Bytes
  {
    prefix + sha(prefix + payload) + payload
  }

  predicate GoodHeader(data: Bytes)
    requires |data| >= HEADER_LEN
  {
    data[..8] == MAGIC && data[8] == 1 && data[9] == 0 && data[10] == 1
  }

  function Checkpoint(data: Bytes): int requires |data| >= HEADER_LEN { UnpackU32(data[15..]) }

  function EntryCount(data: Bytes): int requires |data| >= HEADER_LEN { UnpackU32(data[19..]) }

  lemma PrefixReads(spacing: int, lastCheckpoint: int, count: int, rest: Bytes)
    requires 0 <= spacing < U32_LIMIT && 0 <= lastCheckpoint < U32_LIMIT && 0 <= count < U32_LIMIT
    requires |rest| >= 32
    ensures var data := Prefix(spacing, lastCheckpoint, count) + rest;
      GoodHeader(data) && Checkpoint(data) == lastCheckpoint && EntryCount(data) == count
  {
    var data := Prefix(spacing, lastCheckpoint, count) + rest;
    assert data[15..] == PackU32(lastCheckpoint) + (PackU32(count) + rest);
    UnpackPack(lastCheckpoint, PackU32(count) + rest);
    assert data[19..] == PackU32(count) + rest;
    UnpackPack(count, rest);
    assert data[..8] == MAGIC;
  }

  lemma PrefixBehind(data: Bytes)
    requires |data| >= HEADER_LEN && GoodHeader(data)
    ensures data[..PREFIX_LEN] == Prefix(UnpackU32(data[11..]), Checkpoint(data), EntryCount(data))
  {
    PackUnpack(data[11..]);
    PackUnpack(data[15..]);
    PackUnpack(data[19..]);
    assert data[11..][..4] == data[11..15] && data[15..][..4] == data[15..19] && data[19..][..4] == data[19..23];
    assert data[..PREFIX_LEN] ==
      data[..8] + [data[8], data[9]] + [data[10]] + data[11..15] + data[15..19] + data[19..23];
  }

  /** `data` is the grid of these entries. */
  ghost predicate IsGrid(data: Bytes, sha: Digest, spacing: int, lastCheckpoint: int, es: seq<Entry>)
  {
    && 0 <= spacing < U32_LIMIT && 0 <= lastCheckpoint < U32_LIMIT && |es| <= MAX_ENTRIES
    && AllFit(es) && Rising(es, None) && (es != [] ==> es[|es| - 1].height < lastCheckpoint)
    && data == Assemble(Prefix(spacing, lastCheckpoint, |es|), EncodeEntries(es), sha)
  }

  /** The checks of `parse_grid` in order, with the walk's verdict. */
  function Parse(data: Bytes, sha: Digest): Result<(int, int, Bytes), Refusal>
  {
    if |data| < HEADER_LEN then Err(TooShort)
    else if data[..8] != MAGIC then Err(NotAGrid)
    else if data[8] != 1 || data[9] != 0 then Err(WrongVersion)
    else if data[10] != 1 then Err(WrongNetwork)
    else if EntryCount(data) > MAX_ENTRIES then Err(ImpossibleCount)
    else
      var payload := data[HEADER_LEN..];
      if sha(data[..PREFIX_LEN] + payload) != data[PREFIX_LEN..HEADER_LEN] then Err(BadDigest)
      else if EntryCount(data) * MIN_ENTRY_LEN > |payload| then Err(TooFewBytes)
      else
        match Walk(payload, EntryCount(data), None)
        case Err(e) => Err(e)
        case Ok(last) =>
          if last.Some? && last.value >= Checkpoint(data) then Err(AboveCheckpoint)
          else Ok((Checkpoint(data), EntryCount(data), payload))
  }

  lemma {:induction false} WalkErrors(p: Bytes, n: nat, previous: Option<int>)
    ensures Walk(p, n, previous).Err? ==>
      Walk(p, n, previous).error in {Trailing, ShortRead, OutOfOrder, Truncated}
    decreases n
  {
    if n > 0 && |p| >= 4 {
      var rest := SkipBlobs(p[4..], 3);
      if rest.Some? { WalkErrors(rest.value, n - 1, Some(UnpackU32(p))); }
    }
  }

  /** What the checks before the walk refuse, each when none before it does. */
  lemma RefusalsExactly(data: Bytes, sha: Digest)
    ensures Parse(data, sha) == Err(TooShort) <==> |data| < 55
    ensures |data| >= 55 ==>
      var r, magic := Parse(data, sha), data[..8] == [90, 75, 86, 67, 84, 70, 82, 49];
      var version, mainnet := data[8] == 1 && data[9] == 0, data[10] == 1;
      var count, payload := UnpackU32(data[19..]), data[55..];
      var header := magic && version && mainnet && count <= 16_000_000;
      && (r == Err(NotAGrid) <==> !magic)
      && (r == Err(WrongVersion) <==> magic && !version)
      && (r == Err(WrongNetwork) <==> magic && version && !mainnet)
      && (r == Err(ImpossibleCount) <==> magic && version && mainnet && count > 16_000_000)
      && (r == Err(BadDigest) <==> header && sha(data[..23] + payload) != data[23..55])
      && (r == Err(TooFewBytes) <==>
            header && sha(data[..23] + payload) == data[23..55] && 16 * count > |payload|)
  {
    if |data| >= 55 && EntryCount(data) >= 0 { WalkErrors(data[HEADER_LEN..], EntryCount(data), None); }
  }

  method ParseGrid(data: Bytes, sha: Digest) returns (r: Result<(int, int, Bytes), Refusal>)
    ensures r == Parse(data, sha)
  {
    if |data| < HEADER_LEN { return Err(TooShort); }
    if data[..8] != MAGIC { return Err(NotAGrid); }
    if data[8] != 1 || data[9] != 0 { return Err(WrongVersion); }
    if data[10] != 1 { return Err(WrongNetwork); }
    var lastCheckpoint, count := UnpackU32(data[15..]), UnpackU32(data[19..]);
    if count > MAX_ENTRIES { return Err(ImpossibleCount); }
    var payload := data[HEADER_LEN..];
    if sha(data[..PREFIX_LEN] + payload) != data[PREFIX_LEN..HEADER_LEN] { return Err(BadDigest); }
    if count * MIN_ENTRY_LEN > |payload| { return Err(TooFewBytes); }
    var walked := WalkPayload(payload, count);
    if walked.Err? { return Err(walked.error); }
    if walked.value.Some? && walked.value.value >= lastCheckpoint { return Err(AboveCheckpoint); }
    r := Ok((lastCheckpoint, count, payload));
  }

  /** Every grid is accepted, with its own checkpoint, count and payload. */
  lemma {:induction false} GridAccepted(data: Bytes, sha: Digest, spacing: int, lastCheckpoint: int, es: seq<Entry>)
    requires forall x :: |sha(x)| == 32
    requires IsGrid(data, sha, spacing, lastCheckpoint, es)
    ensures Parse(data, sha) == Ok((lastCheckpoint, |es|, EncodeEntries(es)))
  {
    AssembleReads(spacing, lastCheckpoint, |es|, EncodeEntries(es), sha);
    MinimumLength(es);
    WalkAccepts(es, EncodeEntries(es), |es|, None);
  }

  /** The parts of an assembled grid are where the parser looks for them. */
  lemma AssembleReads(spacing: int, lastCheckpoint: int, count: int, payload: Bytes, sha: Digest)
    requires 0 <= spacing < U32_LIMIT && 0 <= lastCheckpoint < U32_LIMIT && 0 <= count < U32_LIMIT
    requires forall x :: |sha(x)| == 32
    ensures var prefix := Prefix(spacing, lastCheckpoint, count);
      var data := Assemble(prefix, payload, sha);
      && |data| == HEADER_LEN + |payload| && GoodHeader(data)
      && Checkpoint(data) == lastCheckpoint && EntryCount(data) == count
      && data[..PREFIX_LEN] == prefix && data[HEADER_LEN..] == payload
      && data[PREFIX_LEN..HEADER_LEN] == sha(prefix + payload)
  {
    var prefix := Prefix(spacing, lastCheckpoint, count);
    var digest := sha(prefix + payload);
    assert Assemble(prefix, payload, sha) == prefix + (digest + payload);
    PrefixReads(spacing, lastCheckpoint, count, digest + payload);
  }

  /** Whatever is accepted is a grid. */
  lemma {:induction false} AcceptedIsGrid(data: Bytes, sha: Digest) returns (spacing: int, es: seq<Entry>)
    requires Parse(data, sha).Ok?
    ensures IsGrid(data, sha, spacing, Parse(data, sha).value.0, es)
    ensures Parse(data, sha).value == (Checkpoint(data), |es|, EncodeEntries(es))
  {
    var payload := data[HEADER_LEN..];
    es := WalkSound(payload, EntryCount(data), None);
    WalkAccepts(es, payload, EntryCount(data), None);
    spacing := UnpackU32(data[11..]);
    PrefixBehind(data);
    assert data == data[..PREFIX_LEN] + data[PREFIX_LEN..HEADER_LEN] + payload;
  }

  /** Parsing accepts exactly the valid encodings. */
  lemma AcceptsExactlyGrids(data: Bytes, sha: Digest)
    requires forall x :: |sha(x)| == 32
    ensures Parse(data, sha).Ok? <==>
      exists spacing, lastCheckpoint, es :: IsGrid(data, sha, spacing, lastCheckpoint, es)
  {
    if Parse(data, sha).Ok? {
      var spacing, es := AcceptedIsGrid(data, sha);
    }
    if spacing, lastCheckpoint, es :| IsGrid(data, sha, spacing, lastCheckpoint, es) {
      GridAccepted(data, sha, spacing, lastCheckpoint, es);
    }
  }

  // ---- the builder ----

  /** Entries with empty tree blobs at these heights. */
  function Bare(heights: seq<int>): (es: seq<Entry>)
    ensures |es| == |heights| && forall i :: 0 <= i < |es| ==> es[i] == Entry(heights[i], [], [], [])
  {
    seq(|heights|, i requires 0 <= i < |heights| => Entry(heights[i], [], [], []))
  }

  ghost predicate Packable(heights: seq<int>) { forall i :: 0 <= i < |heights| ==> 0 <= heights[i] < U32_LIMIT }

  lemma {:induction false} EncodeAppend(es: seq<Entry>, e: Entry)
    requires AllFit(es) && Fits(e)
    ensures EncodeEntries(es + [e]) == EncodeEntries(es) + EncodeEntry(e)
  {
    if es == [] {
      assert [e][1..] == [];
      assert EncodeEntry(e) + [] == EncodeEntry(e);
      assert es + [e] == [e];
    } else {
      EncodeAppend(es[1..], e);
      assert (es + [e])[1..] == es[1..] + [e];
    }
  }

  method BuildGrid(heights: seq<int>, lastCheckpoint: int, sha: Digest) returns (data: Bytes)
    requires Packable(heights) && 0 <= lastCheckpoint < U32_LIMIT && |heights| < U32_LIMIT
    ensures data == Assemble(Prefix(0, lastCheckpoint, |heights|), EncodeEntries(Bare(heights)), sha)
  {
    var payload: Bytes := [];
    for i := 0 to |heights|
      invariant payload == EncodeEntries(Bare(heights[..i]))
    {
      var e := Entry(heights[i], [], [], []);
      EncodeAppend(Bare(heights[..i]), e);
      assert Bare(heights[..i + 1]) == Bare(heights[..i]) + [e];
      var entry := PackU32(heights[i]);
      for pool := 0 to 3
        invariant entry == PackU32(heights[i]) + Zeros(pool)
      {
        entry := entry + PackU32(0);
      }
      assert entry == EncodeEntry(e);
      payload := payload + entry;
    }
    assert heights[..|heights|] == heights;
    var prefix := Prefix(0, lastCheckpoint, |heights|);
    data := prefix + sha(prefix + payload) + payload;
  }

  function Zeros(n: nat): Bytes
  {
    if n == 0 then [] else Zeros(n - 1) + PackU32(0)
  }

  /** What `parse_grid` demands of the heights a grid is built from. */
  ghost predicate GoodHeights(heights: seq<int>, lastCheckpoint: int)
  {
    && |heights| <= MAX_ENTRIES
    && (forall i, j :: 0 <= i < j < |heights| ==> heights[i] < heights[j])
    && (heights != [] ==> heights[|heights| - 1] < lastCheckpoint)
  }

  /** A built grid parses back exactly when its heights are few enough and rise strictly below the checkpoint. */
  lemma {:induction false} BuildRoundTrip(heights: seq<int>, lastCheckpoint: int, sha: Digest)
    requires forall x :: |sha(x)| == 32
    requires Packable(heights) && 0 <= lastCheckpoint < U32_LIMIT && |heights| < U32_LIMIT
    ensures var data := Assemble(Prefix(0, lastCheckpoint, |heights|), EncodeEntries(Bare(heights)), sha);
      && (Parse(data, sha).Ok? <==> GoodHeights(heights, lastCheckpoint))
      && (Parse(data, sha).Ok? ==> Parse(data, sha).value == (lastCheckpoint, |heights|, EncodeEntries(Bare(heights))))
  {
    var es := Bare(heights);
    var data := Assemble(Prefix(0, lastCheckpoint, |heights|), EncodeEntries(es), sha);
    if GoodHeights(heights, lastCheckpoint) { GridAccepted(data, sha, 0, lastCheckpoint, es); }
    if Parse(data, sha).Ok? {
      var spacing, fs := AcceptedIsGrid(data, sha);
      SamePayload(data, sha, lastCheckpoint, es, fs);
      DecodingUnique(es, fs);
      BareRising(heights, lastCheckpoint);
    }
  }

  lemma BareRising(heights: seq<int>, lastCheckpoint: int)
    requires |heights| <= MAX_ENTRIES && Rising(Bare(heights), None)
    requires heights != [] ==> heights[|heights| - 1] < lastCheckpoint
    ensures GoodHeights(heights, lastCheckpoint)
  {
    var es := Bare(heights);
    forall i, j | 0 <= i < j < |heights| ensures heights[i] < heights[j] { assert es[i].height < es[j].height; }
  }

  lemma {:induction false} SamePayload(data: Bytes, sha: Digest, lastCheckpoint: int, es: seq<Entry>, fs: seq<Entry>)
    requires forall x :: |sha(x)| == 32
    requires AllFit(es) && |es| < U32_LIMIT && 0 <= lastCheckpoint < U32_LIMIT
    requires data == Assemble(Prefix(0, lastCheckpoint, |es|), EncodeEntries(es), sha)
    requires Parse(data, sha).Ok? && AllFit(fs)
    requires Parse(data, sha).value == (Checkpoint(data), |fs|, EncodeEntries(fs))
    ensures |fs| == |es| <= MAX_ENTRIES && EncodeEntries(fs) == EncodeEntries(es) && Checkpoint(data) == lastCheckpoint
  {
    AssembleReads(0, lastCheckpoint, |es|, EncodeEntries(es), sha);
  }
}

/**
 * The log file of one DAFKA partition: how records are appended and indexed, how
 * they are read back through the index, and how the index is rebuilt by scanning
 * the file.  The file is a byte string; integers are big-endian and truncated to
 * their field.
 */
module PartitionLog {
  import opened Bytes
  import opened Sequences

  /** Offsets and time stamps are 64-bit; a stamp is kept as its bit pattern. */
  type uint64 = x: int | 0 <= x < 0x1_0000_0000_0000_0000

  const WRAP: nat := 0x1_0000_0000_0000_0000
  const ENTRY: nat := 25

  datatype Pair = Pair(key: Bytes, value: Bytes)

  /** A record as it is written: its header map is listed in the order it was walked. */
  datatype Entry = Entry(offset: uint64, stamp: uint64, key: Bytes, value: Bytes, headers: seq<Pair>)

  /** A record as it is read. */
  datatype Record = Record(offset: uint64, stamp: uint64, key: Bytes, value: Bytes, headers: map<Bytes, Bytes>)

  /** The fixed part in front of every record. */
  datatype Fixed = Fixed(offset: uint64, stamp: uint64, keySize: nat, valueSize: nat, headerCount: nat)

  // ---- Writing ---------------------------------------------------------------

  function EncodePairs(ps: seq<Pair>): (r: Bytes)
    ensures |r| >= 4 * |ps|
  {
    if ps == [] then []
    else BigEndian(|ps[0].key|, 2) + ps[0].key + BigEndian(|ps[0].value|, 2) + ps[0].value + EncodePairs(ps[1..])
  }

  function EncodeFixed(e: Entry): (r: Bytes)
    ensures |r| == ENTRY
  {
    BigEndian(e.offset, 8) + BigEndian(e.stamp, 8) + BigEndian(|e.key|, 4) + BigEndian(|e.value|, 4)
    + BigEndian(|e.headers|, 1)
  }

  function Body(e: Entry): (r: Bytes)
    ensures |r| >= 4 * |e.headers|
  {
    e.key + e.value + EncodePairs(e.headers)
  }

  function EncodeEntry(e: Entry): (r: Bytes)
    ensures |r| >= ENTRY
  {
    EncodeFixed(e) + Body(e)
  }

  function EncodeLog(log: seq<Entry>): (r: Bytes) {
    if log == [] then [] else EncodeEntry(log[0]) + EncodeLog(log[1..])
  }

  /** No length overflows the field that stores it. */
  predicate Fits(e: Entry) {
    && |e.key| < 0x1_0000_0000 && |e.value| < 0x1_0000_0000 && |e.headers| < 0x100
    && forall i :: 0 <= i < |e.headers| ==> |e.headers[i].key| < 0x1_0000 && |e.headers[i].value| < 0x1_0000
  }

  predicate AllFit(log: seq<Entry>) {
    forall i :: 0 <= i < |log| ==> Fits(log[i])
  }

  // ---- Reading ---------------------------------------------------------------

  function ParseFixed(b: Bytes): (r: Fixed)
    requires |b| == ENTRY
  {
    Powers();
    Fixed(Value(b[..8]), Value(b[8..16]), Value(b[16..20]), Value(b[20..24]), b[24])
  }

  function Zeros(n: nat): (r: Bytes)
    ensures |r| == n
  {
    seq(n, (i: nat) => 0)
  }

  /** One `Read` into a zeroed buffer of `k` bytes: short at the end of the file, an error past it. */
  function ReadSome(rest: Bytes, k: nat): (r: Option<(Bytes, Bytes)>)
    ensures r.Some? ==> |r.value.0| == k
  {
    if k <= |rest| then Some((rest[..k], rest[k..]))
    else if rest == [] then None
    else Some((rest + Zeros(k - |rest|), []))
  }

  /** A 16-bit length and that many bytes. */
  function ReadCounted(rest: Bytes): (r: Option<(Bytes, Bytes)>) {
    if |rest| < 2 then None else ReadSome(rest[2..], Value(rest[..2]))
  }

  function ReadPair(rest: Bytes): (r: Option<(Pair, Bytes)>) {
    match ReadCounted(rest)
    case None => None
    case Some(k) =>
      match ReadCounted(k.1)
      case None => None
      case Some(v) => Some((Pair(k.0, v.0), v.1))
  }

  function ReadPairs(rest: Bytes, n: nat, into: map<Bytes, Bytes>): (r: Option<map<Bytes, Bytes>>)
    decreases n
  {
    if n == 0 then Some(into)
    else match ReadPair(rest)
    case None => None
    case Some(p) => ReadPairs(p.1, n - 1, into[p.0.key := p.0.value])
  }

  function ReadRecord(rest: Bytes): (r: Option<Record>) {
    if |rest| < ENTRY then None else
    var f := ParseFixed(rest[..ENTRY]);
    match ReadSome(rest[ENTRY..], f.keySize)
    case None => None
    case Some(k) =>
      match ReadSome(k.1, f.valueSize)
      case None => None
      case Some(v) =>
        match ReadPairs(v.1, f.headerCount, map[])
        case None => None
        case Some(hs) => Some(Record(f.offset, f.stamp, k.0, v.0, hs))
  }

  /** The header map a list of pairs stands for. */
  function Collapse(ps: seq<Pair>, into: map<Bytes, Bytes>): (r: map<Bytes, Bytes>)
    decreases |ps|
  {
    if ps == [] then into else Collapse(ps[1..], into[ps[0].key := ps[0].value])
  }

  function View(e: Entry): (r: Record) {
    Record(e.offset, e.stamp, e.key, e.value, Collapse(e.headers, map[]))
  }

  // ---- A record reads back ---------------------------------------------------

  lemma ReadSomeExact(a: Bytes, b: Bytes)
    ensures ReadSome(a + b, |a|) == Some((a, b))
  {
    assert (a + b)[..|a|] == a && (a + b)[|a|..] == b;
  }

  lemma ReadCountedOf(rest: Bytes, size: Bytes, tail: Bytes)
    requires |size| == 2 && rest == size + tail
    ensures ReadCounted(rest) == ReadSome(tail, Value(size))
  {
    assert rest[..2] == size && rest[2..] == tail;
  }

  lemma ReadPrefixed(size: Bytes, a: Bytes, b: Bytes)
    requires |size| == 2 && Value(size) == |a|
    ensures ReadCounted(size + a + b) == Some((a, b))
  {
    assert size + a + b == size + (a + b);
    ReadCountedOf(size + a + b, size, a + b);
    ReadSomeExact(a, b);
  }

  lemma ReadCountedExact(a: Bytes, b: Bytes)
    requires |a| < 0x1_0000
    ensures ReadCounted(BigEndian(|a|, 2) + a + b) == Some((a, b))
  {
    Powers();
    ValueBigEndian(|a|, 2);
    ReadPrefixed(BigEndian(|a|, 2), a, b);
  }

  lemma ReadPairExact(p: Pair, rest: Bytes)
    requires |p.key| < 0x1_0000 && |p.value| < 0x1_0000
    ensures ReadPair(BigEndian(|p.key|, 2) + p.key + BigEndian(|p.value|, 2) + p.value + rest) == Some((p, rest))
  {
    var tail := BigEndian(|p.value|, 2) + p.value + rest;
    assert BigEndian(|p.key|, 2) + p.key + BigEndian(|p.value|, 2) + p.value + rest
        == BigEndian(|p.key|, 2) + p.key + tail;
    ReadCountedExact(p.key, tail);
    ReadCountedExact(p.value, rest);
  }

  lemma {:induction false} ReadPairsExact(ps: seq<Pair>, rest: Bytes, into: map<Bytes, Bytes>)
    requires forall i :: 0 <= i < |ps| ==> |ps[i].key| < 0x1_0000 && |ps[i].value| < 0x1_0000
    ensures ReadPairs(EncodePairs(ps) + rest, |ps|, into) == Some(Collapse(ps, into))
    decreases |ps|
  {
    if ps != [] {
      var p, tail := ps[0], EncodePairs(ps[1..]) + rest;
      assert EncodePairs(ps) + rest
          == BigEndian(|p.key|, 2) + p.key + BigEndian(|p.value|, 2) + p.value + tail;
      ReadPairExact(p, tail);
      ReadPairsExact(ps[1..], rest, into[p.key := p.value]);
    }
  }

  lemma OneByte(n: nat)
    requires n < 0x100
    ensures BigEndian(n, 1) == [n]
  {
    assert BigEndian(n / 256, 0) == [];
  }

  lemma ParseFields(offset: Bytes, stamp: Bytes, key: Bytes, value: Bytes, headers: Bytes)
    requires |offset| == 8 && |stamp| == 8 && |key| == 4 && |value| == 4 && |headers| == 1
    ensures var b := offset + stamp + key + value + headers;
            && |b| == ENTRY && b[..8] == offset && b[8..16] == stamp && b[16..20] == key && b[20..24] == value
            && b[24] == headers[0]
  {}

  lemma ParseEncodeFixed(e: Entry)
    requires Fits(e)
    ensures ParseFixed(EncodeFixed(e)) == Fixed(e.offset, e.stamp, |e.key|, |e.value|, |e.headers|)
  {
    Powers();
    ValueBigEndian(e.offset, 8);
    ValueBigEndian(e.stamp, 8);
    ValueBigEndian(|e.key|, 4);
    ValueBigEndian(|e.value|, 4);
    OneByte(|e.headers|);
    ParseFields(BigEndian(e.offset, 8), BigEndian(e.stamp, 8), BigEndian(|e.key|, 4), BigEndian(|e.value|, 4),
                BigEndian(|e.headers|, 1));
  }

  lemma Parts(a: Bytes, b: Bytes, c: Bytes, d: Bytes, e: Bytes)
    ensures var s := a + (b + c + d) + e;
            |s| >= |a| && s[..|a|] == a && s[|a|..] == b + (c + (d + e))
  {}

  lemma ReadOver(fixed: Bytes, key: Bytes, value: Bytes, pairs: Bytes, after: Bytes, f: Fixed, hs: map<Bytes, Bytes>)
    requires |fixed| == ENTRY && ParseFixed(fixed) == f && f.keySize == |key| && f.valueSize == |value|
    requires ReadPairs(pairs + after, f.headerCount, map[]) == Some(hs)
    ensures ReadRecord(fixed + (key + value + pairs) + after) == Some(Record(f.offset, f.stamp, key, value, hs))
  {
    Parts(fixed, key, value, pairs, after);
    ReadSomeExact(key, value + (pairs + after));
    ReadSomeExact(value, pairs + after);
  }

  /** Reading at the start of a written record gives the record, whatever follows it. */
  lemma RecordRoundTrip(e: Entry, after: Bytes)
    requires Fits(e)
    ensures ReadRecord(EncodeEntry(e) + after) == Some(View(e))
  {
    ParseEncodeFixed(e);
    ReadPairsExact(e.headers, after, map[]);
    ReadOver(EncodeFixed(e), e.key, e.value, EncodePairs(e.headers), after,
             ParseFixed(EncodeFixed(e)), Collapse(e.headers, map[]));
  }

  // ---- The bytes in the file -------------------------------------------------

  lemma BodySlices(a: Bytes, b: Bytes, c: Bytes, d: Bytes)
    ensures var s := a + (b + c + d);
            && s[|a|..|a| + |b|] == b && s[|a| + |b|..|a| + |b| + |c|] == c && s[|a| + |b| + |c|..] == d
  {}

  lemma FixedInTheFile(e: Entry)
    requires Fits(e)
    ensures var b := EncodeFixed(e);
            && EightBytes(b[..8], e.offset) && EightBytes(b[8..16], e.stamp)
            && FourBytes(b[16..20], |e.key|) && FourBytes(b[20..24], |e.value|) && b[24] == |e.headers|
  {
    var b := EncodeFixed(e);
    ParseEncodeFixed(e);
    ValueOfEight(b[..8]);
    ValueOfEight(b[8..16]);
    ValueOfFour(b[16..20]);
    ValueOfFour(b[20..24]);
  }

  lemma HeadSlices(f: Bytes, s: Bytes)
    requires |f| == 25 && |s| >= 25 && s[..25] == f
    ensures s[..8] == f[..8] && s[8..16] == f[8..16] && s[16..20] == f[16..20] && s[20..24] == f[20..24]
    ensures s[24] == f[24]
  {
    assert forall i :: 0 <= i < 25 ==> s[i] == s[..25][i];
  }

  /**
   * A record as it lies in the file: 8 bytes of offset, 8 of time stamp, 4 of key size, 4 of
   * value size, 1 of header count, all the most significant first, then key and value.
   */
  lemma {:induction false} RecordInTheFile(e: Entry)
    requires Fits(e)
    ensures var b, k, v := EncodeEntry(e), |e.key|, |e.value|;
            && |b| == 25 + k + v + |EncodePairs(e.headers)|
            && EightBytes(b[..8], e.offset) && EightBytes(b[8..16], e.stamp)
            && FourBytes(b[16..20], k) && FourBytes(b[20..24], v) && b[24] == |e.headers|
            && b[25..25 + k] == e.key && b[25 + k..25 + k + v] == e.value && b[25 + k + v..] == EncodePairs(e.headers)
  {
    var f := EncodeFixed(e);
    BodySlices(f, e.key, e.value, EncodePairs(e.headers));
    HeadSlices(f, EncodeEntry(e));
    FixedInTheFile(e);
  }

  lemma PairSlices(a: Bytes, b: Bytes, c: Bytes, d: Bytes, e: Bytes)
    requires |a| == 2 && |c| == 2
    ensures var s := a + b + c + d + e;
            && s[0] == a[0] && s[1] == a[1] && s[2..2 + |b|] == b
            && s[2 + |b|] == c[0] && s[3 + |b|] == c[1] && s[4 + |b|..4 + |b| + |d|] == d && s[4 + |b| + |d|..] == e
  {}

  /** Headers as they lie in the file: 2 bytes of length and the key, 2 bytes of length and the value, and so on. */
  lemma HeaderInTheFile(ps: seq<Pair>)
    requires ps != [] && |ps[0].key| < 0x1_0000 && |ps[0].value| < 0x1_0000
    ensures var b, k, v := EncodePairs(ps), |ps[0].key|, |ps[0].value|;
            && |b| >= 4 + k + v
            && k == Weigh2(b[0], b[1]) && b[2..2 + k] == ps[0].key
            && v == Weigh2(b[2 + k], b[3 + k]) && b[4 + k..4 + k + v] == ps[0].value
            && b[4 + k + v..] == EncodePairs(ps[1..])
  {
    Powers();
    var k, v := BigEndian(|ps[0].key|, 2), BigEndian(|ps[0].value|, 2);
    ValueBigEndian(|ps[0].key|, 2);
    ValueBigEndian(|ps[0].value|, 2);
    ValueOfTwo(k);
    ValueOfTwo(v);
    PairSlices(k, ps[0].key, v, ps[0].value, EncodePairs(ps[1..]));
  }

  // ---- What a record carries ---------------------------------------------------

  /** Pair `i` is the last with its key, and gives `k` the value `v`. */
  ghost predicate LastPair(ps: seq<Pair>, i: nat, k: Bytes, v: Bytes) {
    i < |ps| && ps[i] == Pair(k, v) && forall j :: i < j < |ps| ==> ps[j].key != k
  }

  /** The last pair with key `k` has value `v`. */
  ghost predicate LastValue(ps: seq<Pair>, k: Bytes, v: Bytes) {
    exists i: nat :: LastPair(ps, i, k, v)
  }

  ghost predicate NoKey(ps: seq<Pair>, k: Bytes) {
    forall j :: 0 <= j < |ps| ==> ps[j].key != k
  }

  lemma LastPairOfRest(p: Pair, rest: seq<Pair>, k: Bytes, v: Bytes, i: nat)
    ensures LastPair([p] + rest, i + 1, k, v) <==> LastPair(rest, i, k, v)
    ensures LastPair([p] + rest, 0, k, v) <==> p == Pair(k, v) && NoKey(rest, k)
    ensures NoKey([p] + rest, k) <==> p.key != k && NoKey(rest, k)
  {
    var ps := [p] + rest;
    assert forall j :: 0 <= j < |rest| ==> rest[j] == ps[j + 1];
    assert forall j :: 0 < j < |ps| ==> ps[j] == rest[j - 1];
  }

  lemma LastOfRest(p: Pair, rest: seq<Pair>, k: Bytes, v: Bytes)
    ensures LastValue([p] + rest, k, v) <==> LastValue(rest, k, v) || (p == Pair(k, v) && NoKey(rest, k))
  {
    LastPairOfRest(p, rest, k, v, 0);
    if i: nat :| LastPair(rest, i, k, v) {
      LastPairOfRest(p, rest, k, v, i);
      assert LastPair([p] + rest, i + 1, k, v);
    }
    if i: nat :| LastPair([p] + rest, i, k, v) {
      if i > 0 {
        LastPairOfRest(p, rest, k, v, i - 1);
        assert LastPair(rest, i - 1, k, v);
      }
    }
  }

  lemma {:induction false} CollapseKeepsLast(ps: seq<Pair>, into: map<Bytes, Bytes>, k: Bytes, v: Bytes)
    ensures var m := Collapse(ps, into);
            k in m && m[k] == v <==> LastValue(ps, k, v) || (k in into && into[k] == v && NoKey(ps, k))
    decreases |ps|
  {
    if ps != [] {
      var p, rest := ps[0], ps[1..];
      assert ps == [p] + rest;
      CollapseKeepsLast(rest, into[p.key := p.value], k, v);
      LastOfRest(p, rest, k, v);
      LastPairOfRest(p, rest, k, v, 0);
    }
  }

  /** The record has the entry's fields, and of its headers the last value of each key. */
  ghost predicate Carries(r: Record, e: Entry) {
    && r.offset == e.offset && r.stamp == e.stamp && r.key == e.key && r.value == e.value
    && forall k, v :: k in r.headers && r.headers[k] == v <==> LastValue(e.headers, k, v)
  }

  lemma ViewCarries(e: Entry)
    ensures Carries(View(e), e)
  {
    forall k, v ensures k in View(e).headers && View(e).headers[k] == v <==> LastValue(e.headers, k, v) {
      CollapseKeepsLast(e.headers, map[], k, v);
    }
  }

  /** Reading at the start of a written record gives a record that carries all of it. */
  lemma RecordCarriesAll(e: Entry, after: Bytes)
    requires Fits(e)
    ensures ReadRecord(EncodeEntry(e) + after).Some? && Carries(ReadRecord(EncodeEntry(e) + after).value, e)
  {
    RecordRoundTrip(e, after);
    ViewCarries(e);
  }

  /** The rest of a cut field, filled up with zeros. */
  function Padded(s: Bytes, n: nat): (r: Bytes)
    requires |s| <= n
  {
    s + Zeros(n - |s|)
  }

  /** The two reads of a body cut after `m` bytes. */
  lemma TornBody(key: Bytes, value: Bytes, m: nat)
    requires m < |key + value|
    ensures var rest := (key + value)[..m];
            var k := ReadSome(rest, |key|);
            && (k.None? <==> m == 0 && key != [])
            && (k.Some? && m >= |key| ==> k.value == (key, value[..m - |key|]))
            && (k.Some? && m < |key| ==> k.value == (Padded(key[..m], |key|), []))
            && (k.Some? ==> (ReadSome(k.value.1, |value|).None? <==> m <= |key| && value != []))
            && (k.Some? && m > |key| ==> ReadSome(k.value.1, |value|) == Some((Padded(value[..m - |key|], |value|), [])))
            && (k.Some? && value == [] ==> ReadSome(k.value.1, |value|) == Some(([], [])))
  {
    var rest := (key + value)[..m];
    if m >= |key| {
      assert rest[..|key|] == key && rest[|key|..] == value[..m - |key|];
    } else {
      assert rest == key[..m];
    }
  }

  /**
   * A header-free record that the file ends inside of is read as if it were whole, with zeros
   * for what is missing, if and only if something of its last field is there; else not at all.
   */
  lemma TornRecord(e: Entry, n: nat)
    requires Fits(e) && e.headers == [] && n < |EncodeEntry(e)|
    ensures var torn, k := ReadRecord(EncodeEntry(e)[..n]), |e.key|;
            && (torn.Some? <==> n > 25 + if e.value == [] then 0 else k)
            && (torn.Some? && e.value != [] ==>
                  torn.value == Record(e.offset, e.stamp, e.key, Padded(e.value[..n - 25 - k], |e.value|), map[]))
            && (torn.Some? && e.value == [] ==>
                  torn.value == Record(e.offset, e.stamp, Padded(e.key[..n - 25], k), [], map[]))
  {
    assert EncodePairs(e.headers) == [];
    assert Body(e) == e.key + e.value;
    if n >= 25 {
      var b := EncodeEntry(e)[..n];
      assert b[..25] == EncodeFixed(e) && b[25..] == (e.key + e.value)[..n - 25];
      ParseEncodeFixed(e);
      TornBody(e.key, e.value, n - 25);
      assert forall rest: Bytes :: ReadPairs(rest, 0, map[]) == Some(map[]);
    }
  }

  // ---- The live index --------------------------------------------------------

  /** A record seen at a position of the file. */
  datatype Visit = Visit(pos: nat, offset: uint64)

  function Indexed(into: map<uint64, nat>, vs: seq<Visit>): (r: map<uint64, nat>)
    decreases |vs|
  {
    if vs == [] then into else Indexed(into[vs[0].offset := vs[0].pos], vs[1..])
  }

  function Highest(head: uint64, vs: seq<Visit>): (r: uint64)
    decreases |vs|
  {
    if vs == [] then head else Highest(if vs[0].offset > head then vs[0].offset else head, vs[1..])
  }

  /** Where the records of a log start, the first of them at `base`. */
  function Starts(log: seq<Entry>, base: nat): (r: seq<Visit>)
    ensures |r| == |log|
    decreases |log|
  {
    if log == [] then []
    else [Visit(base, log[0].offset)] + Starts(log[1..], base + |EncodeEntry(log[0])|)
  }

  lemma {:induction false} IndexedSnoc(into: map<uint64, nat>, vs: seq<Visit>, v: Visit)
    ensures Indexed(into, vs + [v]) == Indexed(into, vs)[v.offset := v.pos]
    decreases |vs|
  {
    if vs == [] {
      assert (vs + [v])[1..] == [];
    } else {
      assert (vs + [v])[1..] == vs[1..] + [v];
      IndexedSnoc(into[vs[0].offset := vs[0].pos], vs[1..], v);
    }
  }

  lemma {:induction false} HighestSnoc(head: uint64, vs: seq<Visit>, v: Visit)
    ensures Highest(head, vs + [v]) == if v.offset > Highest(head, vs) then v.offset else Highest(head, vs)
    decreases |vs|
  {
    if vs == [] {
      assert (vs + [v])[1..] == [];
    } else {
      assert (vs + [v])[1..] == vs[1..] + [v];
      HighestSnoc(if vs[0].offset > head then vs[0].offset else head, vs[1..], v);
    }
  }

  lemma {:induction false} EncodeLogSnoc(log: seq<Entry>, e: Entry)
    ensures EncodeLog(log + [e]) == EncodeLog(log) + EncodeEntry(e)
  {
    if log == [] {
      assert (log + [e])[1..] == [];
      assert EncodeLog([e]) == EncodeEntry(e) + [];
    } else {
      assert (log + [e])[1..] == log[1..] + [e];
      EncodeLogSnoc(log[1..], e);
      assert EncodeEntry(log[0]) + (EncodeLog(log[1..]) + EncodeEntry(e))
          == EncodeEntry(log[0]) + EncodeLog(log[1..]) + EncodeEntry(e);
    }
  }

  lemma {:induction false} StartsSnoc(log: seq<Entry>, e: Entry, base: nat)
    ensures Starts(log + [e], base) == Starts(log, base) + [Visit(base + |EncodeLog(log)|, e.offset)]
    decreases |log|
  {
    if log == [] {
      assert (log + [e])[1..] == [];
    } else {
      var rest, next := log[1..], base + |EncodeEntry(log[0])|;
      assert (log + [e])[1..] == rest + [e];
      StartsSnoc(rest, e, next);
      assert base + |EncodeLog(log)| == next + |EncodeLog(rest)|;
      Assoc([Visit(base, log[0].offset)], Starts(rest, next), [Visit(next + |EncodeLog(rest)|, e.offset)]);
    }
  }

  // ---- Rebuilding by scanning -------------------------------------------------

  /** What the scan adds up for `n` headers: it reads four bytes for each where it stands. */
  function Extra(rest: Bytes, n: nat): (r: Option<nat>)
    decreases n
  {
    if n == 0 then Some(0)
    else if |rest| < 4 then None
    else match Extra(rest[4..], n - 1)
    case None => None
    case Some(x) => Some((Value(rest[..2]) + Value(rest[2..4]) + 4) % 0x1_0000 + x)
  }

  /** What the scan makes of a place in the file: too short for a record, cut off in its headers, or a record. */
  datatype Peek = Broken | Cut(offset: uint64) | Hop(offset: uint64, to: nat)

  /** Where the scan goes next from a record's fixed part; the sizes are added in 32 bits. */
  function Advance(f: Fixed, extra: nat): (r: nat)
    ensures r >= ENTRY
  {
    ENTRY + 4 * f.headerCount + (f.keySize + f.valueSize) % 0x1_0000_0000 + extra
  }

  function PeekAt(file: Bytes, pos: nat): (r: Peek)
    requires pos < |file|
    ensures r.Hop? ==> r.to > pos
  {
    if |file| - pos < ENTRY then Broken
    else
      var f := ParseFixed(file[pos..pos + ENTRY]);
      match Extra(file[pos + ENTRY..], f.headerCount)
      case None => Cut(f.offset)
      case Some(x) => Hop(f.offset, pos + Advance(f, x))
  }

  predicate Forward(table: seq<Peek>) {
    forall pos :: 0 <= pos < |table| && table[pos].Hop? ==> table[pos].to > pos
  }

  /** What the scan would make of every place in the file. */
  function Peeks(file: Bytes): (r: seq<Peek>)
    ensures |r| == |file| && Forward(r)
  {
    seq(|file|, (pos: nat) requires pos < |file| => PeekAt(file, pos))
  }

  /** The scan's verdict: the records it saw, and whether it reached the end cleanly. */
  datatype Scan = Scan(visits: seq<Visit>, ok: bool)

  function Walk(table: seq<Peek>, pos: nat): (r: Scan)
    requires Forward(table)
    decreases |table| - pos
  {
    if pos >= |table| then Scan([], true)
    else match table[pos]
    case Broken => Scan([], false)
    case Cut(offset) => Scan([Visit(pos, offset)], false)
    case Hop(offset, to) =>
      var next := Walk(table, to);
      Scan([Visit(pos, offset)] + next.visits, next.ok)
  }

  /** The rebuild: a scan of the whole file. */
  function Scanned(file: Bytes): (r: Scan) { Walk(Peeks(file), 0) }

  /** How far the scan moves over a record, as the record's own bytes decide it. */
  function Stride(e: Entry): (r: nat) {
    var x := Extra(Body(e), |e.headers|);
    Advance(Fixed(e.offset, e.stamp, |e.key|, |e.value|, |e.headers|), if x.Some? then x.value else 0)
  }

  /** The scan steps from record to record, and from the last one to the end or beyond. */
  predicate Walks(log: seq<Entry>) {
    forall i :: 0 <= i < |log| ==>
      if i == |log| - 1 then Stride(log[i]) >= |EncodeEntry(log[i])| else Stride(log[i]) == |EncodeEntry(log[i])|
  }

  lemma {:induction false} ExtraPrefix(a: Bytes, b: Bytes, n: nat)
    requires |a| >= 4 * n
    ensures Extra(a, n).Some? && Extra(a + b, n) == Extra(a, n)
    decreases n
  {
    if n > 0 {
      assert (a + b)[4..] == a[4..] + b;
      assert (a + b)[..2] == a[..2] && (a + b)[2..4] == a[2..4];
      ExtraPrefix(a[4..], b, n - 1);
    }
  }

  lemma Slices(a: Bytes, b: Bytes, c: Bytes, d: Bytes)
    ensures var s := a + (b + c) + d;
            && |s| >= |a| + |b|
            && s[|a|..|a| + |b|] == b
            && s[|a| + |b|..] == c + d
  {}

  lemma PeekParsed(file: Bytes, pos: nat, fixed: Bytes, tail: Bytes, x: nat)
    requires |fixed| == ENTRY && |file| >= pos + ENTRY && file[pos..pos + ENTRY] == fixed
    requires file[pos + ENTRY..] == tail && Extra(tail, ParseFixed(fixed).headerCount) == Some(x)
    ensures PeekAt(file, pos) == Hop(ParseFixed(fixed).offset, pos + Advance(ParseFixed(fixed), x))
  {}

  lemma PeekOver(before: Bytes, fixed: Bytes, body: Bytes, after: Bytes, f: Fixed)
    requires |fixed| == ENTRY && ParseFixed(fixed) == f && |body| >= 4 * f.headerCount
    ensures Extra(body, f.headerCount).Some?
    ensures PeekAt(before + (fixed + body) + after, |before|)
         == Hop(f.offset, |before| + Advance(f, Extra(body, f.headerCount).value))
  {
    Slices(before, fixed, body, after);
    ExtraPrefix(body, after, f.headerCount);
    PeekParsed(before + (fixed + body) + after, |before|, fixed, body + after, Extra(body, f.headerCount).value);
  }

  /** What the scan makes of the place where a record was written. */
  lemma PeekRecord(before: Bytes, e: Entry, after: Bytes)
    requires Fits(e)
    ensures PeekAt(before + EncodeEntry(e) + after, |before|) == Hop(e.offset, |before| + Stride(e))
  {
    ParseEncodeFixed(e);
    PeekOver(before, EncodeFixed(e), Body(e), after, ParseFixed(EncodeFixed(e)));
  }

  /** A written record as the scan meets it: its offset, its true size and the scan's stride. */
  datatype Item = Item(offset: uint64, size: nat, stride: nat)

  function Items(log: seq<Entry>): (r: seq<Item>)
    ensures |r| == |log|
  {
    seq(|log|, (i: nat) requires i < |log| =>
      Item(log[i].offset, |EncodeEntry(log[i])|, Stride(log[i])))
  }

  /** The items lie one after the other in the table from `base` to its end. */
  predicate Laid(table: seq<Peek>, items: seq<Item>, base: nat)
    decreases |items|
  {
    if items == [] then base == |table|
    else
      && base < |table| && items[0].size > 0
      && table[base] == Hop(items[0].offset, base + items[0].stride)
      && Laid(table, items[1..], base + items[0].size)
  }

  function Places(items: seq<Item>, base: nat): (r: seq<Visit>)
    ensures |r| == |items|
    decreases |items|
  {
    if items == [] then [] else [Visit(base, items[0].offset)] + Places(items[1..], base + items[0].size)
  }

  predicate Fitting(items: seq<Item>) {
    forall i :: 0 <= i < |items| ==>
      if i == |items| - 1 then items[i].stride >= items[i].size else items[i].stride == items[i].size
  }

  lemma FittingRest(items: seq<Item>)
    requires items != []
    ensures |items| == 1 ==> (Fitting(items) <==> items[0].stride >= items[0].size)
    ensures |items| > 1 ==> (Fitting(items) <==> items[0].stride == items[0].size && Fitting(items[1..]))
  {
    assert forall i :: 0 <= i < |items[1..]| ==> items[1..][i] == items[i + 1];
  }

  lemma WalkFirst(table: seq<Peek>, pos: nat)
    requires Forward(table)
    ensures Walk(table, pos) == Scan([], true) <==> pos >= |table|
    ensures var r := Walk(table, pos); r.visits != [] ==> r.visits[0].pos == pos
  {}

  lemma WalkCons(v: Visit, next: Scan, places: seq<Visit>)
    ensures Scan([v] + next.visits, next.ok) == Scan([v] + places, true) <==> next == Scan(places, true)
  {
    assert ([v] + next.visits)[1..] == next.visits && ([v] + places)[1..] == places;
  }

  /** The walk sees exactly the items where they lie, if and only if every stride fits. */
  lemma {:induction false} WalkExact(table: seq<Peek>, items: seq<Item>, base: nat)
    requires Forward(table) && Laid(table, items, base)
    ensures Walk(table, base) == Scan(Places(items, base), true) <==> Fitting(items)
    decreases |items|
  {
    if items != [] {
      var rest, here, pos := items[1..], base + items[0].size, base + items[0].stride;
      WalkCons(Visit(base, items[0].offset), Walk(table, pos), Places(rest, here));
      WalkFirst(table, pos);
      FittingRest(items);
      if rest != [] { WalkExact(table, rest, here); }
    }
  }

  lemma PeeksRecord(before: Bytes, e: Entry, after: Bytes, table: seq<Peek>)
    requires Fits(e) && table == Peeks(before + EncodeEntry(e) + after)
    ensures |before| < |table| && table[|before|] == Hop(e.offset, |before| + Stride(e))
  {
    PeekRecord(before, e, after);
  }

  lemma {:induction false} LaidCons(
    table: seq<Peek>, offset: uint64, size: nat, stride: nat, rest: seq<Item>, base: nat, next: nat)
    requires base < |table| && size > 0 && table[base] == Hop(offset, base + stride)
    requires next == base + size && Laid(table, rest, next)
    ensures Laid(table, [Item(offset, size, stride)] + rest, base)
  {
    assert ([Item(offset, size, stride)] + rest)[1..] == rest;
  }

  lemma ItemsCons(e: Entry, rest: seq<Entry>)
    ensures Items([e] + rest) == [Item(e.offset, |EncodeEntry(e)|, Stride(e))] + Items(rest)
  {}

  lemma {:induction false} LogLaid(before: Bytes, log: seq<Entry>, table: seq<Peek>)
    requires AllFit(log) && table == Peeks(before + EncodeLog(log))
    ensures Laid(table, Items(log), |before|)
    decreases |log|
  {
    if log == [] {
      assert before + EncodeLog(log) == before;
    } else {
      var e, rest := log[0], log[1..];
      assert log == [e] + rest;
      var enc := EncodeEntry(e);
      Assoc(before, enc, EncodeLog(rest));
      PeeksRecord(before, e, EncodeLog(rest), table);
      LogLaid(before + enc, rest, table);
      ItemsCons(e, rest);
      LaidCons(table, e.offset, |enc|, Stride(e), Items(rest), |before|, |before + enc|);
    }
  }

  lemma {:induction false} ItemPlaces(log: seq<Entry>, base: nat)
    ensures Places(Items(log), base) == Starts(log, base)
    decreases |log|
  {
    if log != [] {
      assert Items(log)[1..] == Items(log[1..]);
      ItemPlaces(log[1..], base + |EncodeEntry(log[0])|);
    }
  }

  lemma FittingWalks(log: seq<Entry>)
    ensures Fitting(Items(log)) <==> Walks(log)
  {
    var items := Items(log);
    assert forall i :: 0 <= i < |log| ==>
      items[i].stride == Stride(log[i]) && items[i].size == |EncodeEntry(log[i])|;
  }

  /**
   * Scanning sees exactly the records that were written, each where it was written,
   * if and only if every stride fits: for every log, with or without headers.
   */
  lemma ScanExact(log: seq<Entry>)
    requires AllFit(log)
    ensures Scanned(EncodeLog(log)) == Scan(Starts(log, 0), true) <==> Walks(log)
  {
    assert [] + EncodeLog(log) == EncodeLog(log);
    LogLaid([], log, Peeks(EncodeLog(log)));
    ItemPlaces(log, 0);
    WalkExact(Peeks(EncodeLog(log)), Items(log), 0);
    FittingWalks(log);
  }

  /** A record without headers is stepped over exactly when its sizes add up within 32 bits. */
  lemma HeaderFreeStride(e: Entry)
    requires Fits(e) && e.headers == []
    ensures Stride(e) == |EncodeEntry(e)| <==> |e.key| + |e.value| < 0x1_0000_0000
  {
    assert Extra(Body(e), 0) == Some(0);
    assert EncodePairs(e.headers) == [];
    assert |EncodeEntry(e)| == ENTRY + |e.key| + |e.value|;
  }

  /** The index, head and count that appending these records one by one leaves. */
  function LiveIndex(log: seq<Entry>): (r: map<uint64, nat>) { Indexed(map[], Starts(log, 0)) }

  function LiveHead(log: seq<Entry>): (r: uint64) { Highest(0, Starts(log, 0)) }

  lemma {:induction false} HighestIsGreatest(head: uint64, vs: seq<Visit>)
    ensures head <= Highest(head, vs)
    ensures forall i :: 0 <= i < |vs| ==> vs[i].offset <= Highest(head, vs)
    ensures Highest(head, vs) == head || exists i :: 0 <= i < |vs| && vs[i].offset == Highest(head, vs)
    decreases |vs|
  {
    if vs != [] {
      var next := if vs[0].offset > head then vs[0].offset else head;
      HighestIsGreatest(next, vs[1..]);
      var h := Highest(head, vs);
      forall i | 0 <= i < |vs| ensures vs[i].offset <= h {
        if i > 0 { assert vs[i] == vs[1..][i - 1]; }
      }
      if h != next {
        var j :| 0 <= j < |vs[1..]| && vs[1..][j].offset == h;
        assert vs[j + 1].offset == h;
      }
    }
  }

  lemma {:induction false} StartsOffsets(log: seq<Entry>, base: nat)
    ensures forall i :: 0 <= i < |log| ==> Starts(log, base)[i].offset == log[i].offset
    decreases |log|
  {
    if log != [] {
      var rest := base + |EncodeEntry(log[0])|;
      StartsOffsets(log[1..], rest);
      forall i | 0 <= i < |log| ensures Starts(log, base)[i].offset == log[i].offset {
        if i > 0 { assert Starts(log, base)[i] == Starts(log[1..], rest)[i - 1]; }
      }
    }
  }

  /** The head is the greatest offset written, and zero for an empty log. */
  lemma HeadIsGreatest(log: seq<Entry>)
    ensures forall i :: 0 <= i < |log| ==> log[i].offset <= LiveHead(log)
    ensures LiveHead(log) == 0 || exists i :: 0 <= i < |log| && log[i].offset == LiveHead(log)
  {
    var vs := Starts(log, 0);
    StartsOffsets(log, 0);
    HighestIsGreatest(0, vs);
    forall i | 0 <= i < |log| ensures log[i].offset <= LiveHead(log) { assert vs[i].offset <= LiveHead(log); }
    if LiveHead(log) != 0 {
      var i :| 0 <= i < |vs| && vs[i].offset == LiveHead(log);
      assert log[i].offset == LiveHead(log);
    }
  }

  /** Over a record with one header the scan moves by the bytes it takes for the two lengths. */
  lemma OneHeaderStride(e: Entry)
    requires Fits(e) && |e.headers| == 1
    ensures var b := Body(e);
            Stride(e) == 29 + (|e.key| + |e.value|) % 0x1_0000_0000
                         + (Weigh2(b[0], b[1]) + Weigh2(b[2], b[3]) + 4) % 0x1_0000
  {
    var b := Body(e);
    assert Extra(b[4..], 0) == Some(0);
    ValueOfTwo(b[..2]);
    ValueOfTwo(b[2..4]);
  }

  /** The rebuild leaves the index, the head and the count that the appends had left. */
  ghost predicate Rebuilt(log: seq<Entry>) {
    var r := Scanned(EncodeLog(log));
    && r.ok
    && Indexed(map[], r.visits) == LiveIndex(log)
    && Highest(0, r.visits) == LiveHead(log)
    && |r.visits| == |log|
  }

  /** Scanning the file from byte 0 rebuilds memory for every log whose strides fit, headers or not. */
  lemma RebuildIsLive(log: seq<Entry>)
    requires AllFit(log) && Walks(log)
    ensures Rebuilt(log)
  {
    ScanExact(log);
  }

  /** So it does for all header-free records whose sizes add up within 32 bits. */
  lemma HeaderFreeRebuild(log: seq<Entry>)
    requires forall i :: 0 <= i < |log| ==>
      Fits(log[i]) && log[i].headers == [] && |log[i].key| + |log[i].value| < 0x1_0000_0000
    ensures Rebuilt(log)
  {
    forall i | 0 <= i < |log| ensures Stride(log[i]) == |EncodeEntry(log[i])| { HeaderFreeStride(log[i]); }
    RebuildIsLive(log);
  }

  /** Two records, the first with one header: the scan misreads it and loses the second. */
  const TAGGED := Entry(0, 0, [], [], [Pair([97], [98])])
  const PLAIN := Entry(1, 0, [], [], [])

  /** A hop past the end of the file ends the walk after one record. */
  lemma WalkHop(table: seq<Peek>, offset: uint64, to: nat)
    requires Forward(table) && |table| > 0 && table[0] == Hop(offset, to) && to >= |table|
    ensures Walk(table, 0) == Scan([Visit(0, offset)], true)
  {}

  /** Whenever the stride over a first record reaches past a second one, the scan never sees the second. */
  lemma OvershotRecordIsLost(first: Entry, second: Entry)
    requires Fits(first) && Stride(first) >= |EncodeEntry(first)| + |EncodeLog([second])|
    ensures Scanned(EncodeLog([first, second])) == Scan([Visit(0, first.offset)], true)
  {
    var file, rest := EncodeLog([first, second]), EncodeLog([second]);
    assert [first, second][1..] == [second];
    assert file == [] + EncodeEntry(first) + rest;
    PeeksRecord([], first, rest, Peeks(file));
    WalkHop(Peeks(file), first.offset, Stride(first));
  }

  lemma TaggedIndex()
    requires |EncodeEntry(TAGGED)| == 31
    ensures LiveIndex([TAGGED, PLAIN]) == map[0 := 0, 1 := 31]
  {
    var v, w := Visit(0, 0), Visit(31, 1);
    assert [TAGGED, PLAIN][1..] == [PLAIN] && [PLAIN][1..] == [];
    assert Starts([PLAIN], 31) == [w] + Starts([], 31 + |EncodeEntry(PLAIN)|);
    assert Starts([TAGGED, PLAIN], 0) == [v] + [w];
    IndexedSnoc(map[], [v], w);
    IndexedSnoc(map[], [], v);
    assert [] + [v] == [v];
  }

  lemma SmallValues()
    ensures BigEndian(1, 2) == [0, 1]
    ensures Value([0, 1]) == 1 && Value([97, 0]) == 24832
  {
    assert BigEndian(1, 2) == BigEndian(0, 1) + [1] && BigEndian(0, 1) == [0];
    assert [0, 1][..1] == [0] && Value([0]) == 0;
    assert [97, 0][..1] == [97] && Value([97]) == 97;
  }

  lemma TaggedBytes()
    ensures Body(TAGGED) == [0, 1, 97, 0, 1, 98]
    ensures |EncodeEntry(TAGGED)| == 31
    ensures Stride(TAGGED) > 56
  {
    SmallValues();
    assert EncodePairs(TAGGED.headers[1..]) == [];
    var b: Bytes := [0, 1, 97, 0, 1, 98];
    assert EncodePairs(TAGGED.headers) == b;
    assert Body(TAGGED) == b;
    assert b[..2] == [0, 1] && b[2..4] == [97, 0];
    assert Extra(b[4..], 0) == Some(0);
    assert Extra(b, 1) == Some(24837);
  }

  lemma PlainBytes()
    ensures |EncodeLog([PLAIN])| == 25
  {
    assert Body(PLAIN) == [] by { assert EncodePairs(PLAIN.headers) == []; }
    assert EncodeLog([PLAIN][1..]) == [];
    assert EncodeLog([PLAIN]) == EncodeEntry(PLAIN);
  }

  lemma HeadersBreakRebuild()
    ensures AllFit([TAGGED, PLAIN])
    ensures LiveIndex([TAGGED, PLAIN]) == map[0 := 0, 1 := 31]
    ensures Scanned(EncodeLog([TAGGED, PLAIN])) == Scan([Visit(0, 0)], true)
  {
    TaggedBytes();
    PlainBytes();
    TaggedIndex();
    OvershotRecordIsLost(TAGGED, PLAIN);
  }

  // ---- Reading through the index ----------------------------------------------

  /** The latest record written at each offset. */
  function Latest(log: seq<Entry>): (r: map<uint64, Entry>) {
    if log == [] then map[] else Latest(log[..|log| - 1])[log[|log| - 1].offset := log[|log| - 1]]
  }

  /** The index knows the offsets that were written, and points at their latest record. */
  lemma {:induction false} IndexPoints(log: seq<Entry>, offset: uint64, tail: Bytes) returns (after: Bytes)
    ensures offset in LiveIndex(log) <==> offset in Latest(log)
    ensures offset in LiveIndex(log) ==>
      var file, pos := EncodeLog(log) + tail, LiveIndex(log)[offset];
      pos <= |file| && file[pos..] == EncodeEntry(Latest(log)[offset]) + after
  {
    after := [];
    if log != [] {
      var e, init := log[|log| - 1], log[..|log| - 1];
      assert log == init + [e];
      EncodeLogSnoc(init, e);
      StartsSnoc(init, e, 0);
      IndexedSnoc(map[], Starts(init, 0), Visit(|EncodeLog(init)|, e.offset));
      assert EncodeLog(log) + tail == EncodeLog(init) + (EncodeEntry(e) + tail);
      var below := IndexPoints(init, offset, EncodeEntry(e) + tail);
      after := if offset == e.offset then tail else below;
    }
  }

  /** Successive offsets, in 64-bit arithmetic. */
  function After(start: uint64, i: nat): (r: uint64) { (start + i) % WRAP }

  /** What one turn of the fetch loop finds: nothing indexed, an unreadable record, or a record. */
  datatype Found = Missing | Unreadable | Found(record: Record)

  function Find(file: Bytes, index: map<uint64, nat>, offset: uint64): (r: Found) {
    if offset !in index then Missing
    else if index[offset] > |file| then Unreadable
    else match ReadRecord(file[index[offset]..])
    case None => Unreadable
    case Some(x) => Found(x)
  }

  /** The records a list of finds yields up to the first that is not one, and whether that was not an error. */
  function Yield(finds: seq<Found>): (r: (seq<Record>, bool))
    decreases |finds|
  {
    if finds == [] || finds[0].Missing? then ([], true)
    else if finds[0].Unreadable? then ([], false)
    else var rest := Yield(finds[1..]); ([finds[0].record] + rest.0, rest.1)
  }

  function Finds(file: Bytes, index: map<uint64, nat>, start: uint64, count: nat): (r: seq<Found>)
    ensures |r| == count
  {
    seq(count, (i: nat) requires i < count => Find(file, index, After(start, i)))
  }

  function Fetched(file: Bytes, index: map<uint64, nat>, start: uint64, count: nat): (r: (seq<Record>, bool)) {
    Yield(Finds(file, index, start, count))
  }

  predicate IsLatest(latest: map<uint64, Entry>, offset: uint64, r: Record) {
    offset in latest && r == View(latest[offset])
  }

  /** `rs` are the latest records of the longest gap-free run from `start`, at most `count` of them. */
  ghost predicate LongestRun(latest: map<uint64, Entry>, start: uint64, count: nat, rs: seq<Record>) {
    && |rs| <= count
    && (forall k :: 0 <= k < |rs| ==> IsLatest(latest, After(start, k), rs[k]))
    && (|rs| == count || After(start, |rs|) !in latest)
  }

  lemma {:induction false} LatestIn(log: seq<Entry>, offset: uint64)
    requires offset in Latest(log)
    ensures Latest(log)[offset] in log && Latest(log)[offset].offset == offset
  {
    if log[|log| - 1].offset != offset { LatestIn(log[..|log| - 1], offset); }
  }

  /** A find in a written log: the latest record at the offset, or nothing. */
  lemma FindIsLatest(log: seq<Entry>, offset: uint64)
    requires AllFit(log)
    ensures Find(EncodeLog(log), LiveIndex(log), offset)
         == if offset in Latest(log) then Found(View(Latest(log)[offset])) else Missing
  {
    var after := IndexPoints(log, offset, []);
    assert EncodeLog(log) + [] == EncodeLog(log);
    if offset in LiveIndex(log) {
      LatestIn(log, offset);
      RecordRoundTrip(Latest(log)[offset], after);
    }
  }

  lemma {:induction false} YieldLeading(finds: seq<Found>)
    requires forall k :: 0 <= k < |finds| ==> !finds[k].Unreadable?
    ensures var r := Yield(finds);
            && r.1 && |r.0| <= |finds|
            && (forall k :: 0 <= k < |r.0| ==> finds[k] == Found(r.0[k]))
            && (|r.0| == |finds| || finds[|r.0|].Missing?)
    decreases |finds|
  {
    if finds != [] && finds[0].Found? {
      YieldLeading(finds[1..]);
      var r, rest := Yield(finds).0, Yield(finds[1..]).0;
      forall k | 0 <= k < |r| ensures finds[k] == Found(r[k]) {
        if k > 0 { assert finds[1..][k - 1] == Found(rest[k - 1]); }
      }
      if |rest| < |finds[1..]| { assert finds[1..][|rest|].Missing?; }
    }
  }

  lemma LeadingRun(finds: seq<Found>, latest: map<uint64, Entry>, start: uint64)
    requires forall k :: 0 <= k < |finds| ==>
      finds[k] == if After(start, k) in latest then Found(View(latest[After(start, k)])) else Missing
    ensures Yield(finds).1 && LongestRun(latest, start, |finds|, Yield(finds).0)
  {
    YieldLeading(finds);
  }

  /** Reads refine a plain map: for every log whose lengths fit, headers included. */
  lemma FetchIsLatest(log: seq<Entry>, start: uint64, count: nat)
    requires AllFit(log)
    ensures var r := Fetched(EncodeLog(log), LiveIndex(log), start, count);
            r.1 && LongestRun(Latest(log), start, count, r.0)
  {
    var finds := Finds(EncodeLog(log), LiveIndex(log), start, count);
    var latest := Latest(log);
    forall k | 0 <= k < count
      ensures finds[k] == if After(start, k) in latest then Found(View(latest[After(start, k)])) else Missing
    {
      FindIsLatest(log, After(start, k));
    }
    LeadingRun(finds, latest, start);
  }

  /** The last entry of the log with this offset is the one at `i`. */
  ghost predicate LastAt(log: seq<Entry>, i: nat, offset: uint64) {
    i < |log| && log[i].offset == offset && forall j :: i < j < |log| ==> log[j].offset != offset
  }

  ghost predicate NeverWritten(log: seq<Entry>, offset: uint64) {
    forall i :: 0 <= i < |log| ==> log[i].offset != offset
  }

  lemma LastAtSnoc(init: seq<Entry>, e: Entry, i: nat, offset: uint64)
    ensures LastAt(init + [e], i, offset) <==>
      if e.offset == offset then i == |init| else LastAt(init, i, offset)
  {
    var log := init + [e];
    assert log[|init|] == e;
    assert forall j :: 0 <= j < |init| ==> log[j] == init[j];
  }

  lemma NeverSnoc(init: seq<Entry>, e: Entry, offset: uint64)
    requires NeverWritten(init, offset) && e.offset != offset
    ensures NeverWritten(init + [e], offset)
  {}

  /** A plain map of the log: the offsets that were written, each with the last entry written at it. */
  lemma {:induction false} LatestIsLast(log: seq<Entry>, offset: uint64)
    ensures offset in Latest(log) <==> exists i: nat :: LastAt(log, i, offset)
    ensures offset in Latest(log) ==> exists i: nat :: LastAt(log, i, offset) && Latest(log)[offset] == log[i]
    ensures offset !in Latest(log) ==> NeverWritten(log, offset)
  {
    if log != [] {
      var n := |log| - 1;
      var init, e := log[..n], log[n];
      assert log == init + [e];
      LatestIsLast(init, offset);
      if e.offset == offset {
        LastAtSnoc(init, e, n, offset);
        assert LastAt(log, n, offset) && Latest(log)[offset] == log[n];
      } else if offset in Latest(init) {
        var i: nat :| LastAt(init, i, offset) && Latest(init)[offset] == init[i];
        LastAtSnoc(init, e, i, offset);
        assert LastAt(log, i, offset) && Latest(log)[offset] == log[i];
      } else {
        NeverSnoc(init, e, offset);
      }
    }
  }

  lemma {:induction false} LatestCarries(log: seq<Entry>, offset: uint64, r: Record)
    requires IsLatest(Latest(log), offset, r)
    ensures exists i: nat :: LastAt(log, i, offset) && Carries(r, log[i])
  {
    LatestIsLast(log, offset);
    var i: nat :| LastAt(log, i, offset) && Latest(log)[offset] == log[i];
    ViewCarries(log[i]);
    assert LastAt(log, i, offset) && Carries(r, log[i]);
  }

  /** The offset `k` after `start`, in 64-bit arithmetic. */
  ghost predicate OffsetAfter(start: uint64, k: nat, offset: uint64) {
    offset == (start + k) % 0x1_0000_0000_0000_0000
  }

  lemma {:induction false} RunAsWritten(log: seq<Entry>, start: uint64, count: nat, k: nat, offset: uint64, rs: seq<Record>)
    requires LongestRun(Latest(log), start, count, rs) && OffsetAfter(start, k, offset)
    ensures k < |rs| ==> exists i: nat :: LastAt(log, i, offset) && Carries(rs[k], log[i])
    ensures k == |rs| < count ==> NeverWritten(log, offset)
  {
    assert offset == After(start, k);
    if k < |rs| {
      assert IsLatest(Latest(log), offset, rs[k]);
      LatestCarries(log, offset, rs[k]);
    } else if k == |rs| < count {
      LatestIsLast(log, offset);
    }
  }

  /**
   * A fetch, without naming how it works: the k-th record carries the last entry written at the
   * start plus k, and it stops short of the count only where no entry was ever written.
   */
  lemma {:induction false} FetchedAsWritten(log: seq<Entry>, start: uint64, count: nat, k: nat, offset: uint64)
    requires AllFit(log) && OffsetAfter(start, k, offset)
    ensures var (rs, ok) := Fetched(EncodeLog(log), LiveIndex(log), start, count);
            && ok && |rs| <= count
            && (k < |rs| ==> exists i: nat :: LastAt(log, i, offset) && Carries(rs[k], log[i]))
            && (k == |rs| < count ==> NeverWritten(log, offset))
  {
    FetchIsLatest(log, start, count);
    RunAsWritten(log, start, count, k, offset, Fetched(EncodeLog(log), LiveIndex(log), start, count).0);
  }

  // ---- The partition as it is kept ----------------------------------------------

  /** Writes the headers one after the other. */
  method EncodeHeaders(headers: seq<Pair>) returns (r: Bytes)
    ensures r == EncodePairs(headers)
  {
    r := [];
    var i := 0;
    while i < |headers|
      invariant i <= |headers| && EncodePairs(headers) == r + EncodePairs(headers[i..])
    {
      var p := headers[i];
      assert headers[i..][1..] == headers[i + 1..];
      r := r + (BigEndian(|p.key|, 2) + p.key + BigEndian(|p.value|, 2) + p.value);
      i := i + 1;
    }
  }

  /** Reads the headers one after the other; a repeated key keeps its last value. */
  method DecodeHeaders(rest: Bytes, count: nat) returns (r: Option<map<Bytes, Bytes>>)
    ensures r == ReadPairs(rest, count, map[])
  {
    var headers: map<Bytes, Bytes> := map[];
    var left, i := rest, 0;
    while i < count
      invariant i <= count && ReadPairs(rest, count, map[]) == ReadPairs(left, count - i, headers)
    {
      var pair := ReadPair(left);
      if pair.None? { return None; }
      headers := headers[pair.value.0.key := pair.value.0.value];
      left := pair.value.1;
      i := i + 1;
    }
    return Some(headers);
  }

  method DecodeRecord(rest: Bytes) returns (r: Option<Record>)
    ensures r == ReadRecord(rest)
  {
    if |rest| < ENTRY { return None; }
    var f := ParseFixed(rest[..ENTRY]);
    var key := ReadSome(rest[ENTRY..], f.keySize);
    if key.None? { return None; }
    var value := ReadSome(key.value.1, f.valueSize);
    if value.None? { return None; }
    var headers := DecodeHeaders(value.value.1, f.headerCount);
    if headers.None? { return None; }
    r := Some(Record(f.offset, f.stamp, key.value.0, value.value.0, headers.value));
  }

  /** Of all there is to skip, `done` is behind and `left` ahead. */
  ghost predicate Seen(all: Option<nat>, done: nat, left: Option<nat>) {
    (all.Some? <==> left.Some?) && (all.Some? ==> all.value == done + left.value)
  }

  lemma {:induction false} ExtraAt(file: Bytes, at: nat, n: nat)
    requires n > 0 && at + 4 <= |file|
    ensures var here, next := Extra(file[at..], n), Extra(file[at + 4..], n - 1);
            var size := (Value(file[at..at + 2]) + Value(file[at + 2..at + 4]) + 4) % 0x1_0000;
            Seen(here, size, next)
  {
    var rest := file[at..];
    assert rest[..2] == file[at..at + 2] && rest[2..4] == file[at + 2..at + 4] && rest[4..] == file[at + 4..];
  }

  /** What the scan adds up over the headers: four bytes are read for each. */
  method HeaderSkip(file: Bytes, start: nat, count: nat) returns (skip: Option<nat>)
    requires start <= |file|
    ensures skip == Extra(file[start..], count)
  {
    var total, cursor, i := 0, start, 0;
    while i < count
      invariant i <= count && start <= cursor <= |file|
      invariant Seen(Extra(file[start..], count), total, Extra(file[cursor..], count - i))
    {
      if |file| - cursor < 4 { return None; }
      ExtraAt(file, cursor, count - i);
      var keyLen, valueLen := Value(file[cursor..cursor + 2]), Value(file[cursor + 2..cursor + 4]);
      total, cursor, i := total + (keyLen + valueLen + 4) % 0x1_0000, cursor + 4, i + 1;
    }
    return Some(total);
  }

  /** What the scan reads at `pos`: the fixed part, then four bytes for each header. */
  method Glance(file: Bytes, pos: nat) returns (seen: Peek)
    requires pos < |file|
    ensures seen == PeekAt(file, pos)
  {
    if |file| - pos < ENTRY { return Broken; }
    var f := ParseFixed(file[pos..pos + ENTRY]);
    var skip := HeaderSkip(file, pos + ENTRY, f.headerCount);
    if skip.None? { return Cut(f.offset); }
    var cursor := pos + ENTRY + 4 * f.headerCount;
    return Hop(f.offset, cursor + (f.keySize + f.valueSize) % 0x1_0000_0000 + skip.value);
  }

  lemma WalkStep(table: seq<Peek>, pos: nat)
    requires Forward(table) && pos < |table|
    ensures table[pos].Broken? ==> Walk(table, pos) == Scan([], false)
    ensures table[pos].Cut? ==>
      var v := Visit(pos, table[pos].offset);
      && Walk(table, pos) == Scan([v], false)
      && (forall m :: Indexed(m, [v]) == m[v.offset := v.pos])
      && (forall h :: Highest(h, [v]) == if v.offset > h then v.offset else h)
    ensures table[pos].Hop? ==>
      var v, next := Visit(pos, table[pos].offset), Walk(table, table[pos].to);
      && Walk(table, pos) == Scan([v] + next.visits, next.ok)
      && (forall m :: Indexed(m, [v] + next.visits) == Indexed(m[v.offset := v.pos], next.visits))
      && (forall h :: Highest(h, [v] + next.visits) == Highest(if v.offset > h then v.offset else h, next.visits))
  {
    if table[pos].Cut? {
      var v := Visit(pos, table[pos].offset);
      forall h ensures Highest(h, [v]) == if v.offset > h then v.offset else h {
        assert Highest(if v.offset > h then v.offset else h, [v][1..]) == if v.offset > h then v.offset else h;
      }
      assert [v][1..] == [];
    } else if table[pos].Hop? {
      var v, next := Visit(pos, table[pos].offset), Walk(table, table[pos].to);
      assert ([v] + next.visits)[1..] == next.visits;
    }
  }

  /** One partition: its file, and the index, head and count kept in memory. */
  class PartitionStore {
    var file: Bytes
    var index: map<uint64, nat>
    var headOffset: uint64
    var recordCount: nat

    /** The file holds exactly these records, and memory what appending them leaves. */
    ghost predicate Holds(log: seq<Entry>)
      reads this
    {
      && file == EncodeLog(log)
      && index == LiveIndex(log)
      && headOffset == LiveHead(log)
      && recordCount == |log|
    }

    /** Opens a partition over whatever its file already holds. */
    constructor (contents: Bytes)
      ensures file == contents && index == map[] && headOffset == 0 && recordCount == 0
    {
      file, index, headOffset, recordCount := contents, map[], 0, 0;
    }

    /** Appends a record and indexes it where the file ended. */
    method WriteRecord(e: Entry, ghost log: seq<Entry>)
      requires Holds(log)
      modifies this
      ensures Holds(log + [e])
    {
      var pos := |file|;
      var body := EncodeHeaders(e.headers);
      file := file + (EncodeFixed(e) + (e.key + e.value + body));
      index := index[e.offset := pos];
      if e.offset > headOffset { headOffset := e.offset; }
      recordCount := recordCount + 1;
      EncodeLogSnoc(log, e);
      StartsSnoc(log, e, 0);
      IndexedSnoc(map[], Starts(log, 0), Visit(pos, e.offset));
      HighestSnoc(0, Starts(log, 0), Visit(pos, e.offset));
    }

    /** Rebuilds index, head and count from the file; an error leaves what was seen so far. */
    method LoadPartitionIndex() returns (ok: bool)
      requires index == map[] && headOffset == 0 && recordCount == 0
      modifies this`index, this`headOffset, this`recordCount
      ensures Indexed(map[], Scanned(file).visits) == index
      ensures Highest(0, Scanned(file).visits) == headOffset
      ensures |Scanned(file).visits| == recordCount
      ensures ok == Scanned(file).ok
    {
      var pos := 0;
      while pos < |file|
        invariant Indexed(index, Walk(Peeks(file), pos).visits) == Indexed(map[], Scanned(file).visits)
        invariant Highest(headOffset, Walk(Peeks(file), pos).visits) == Highest(0, Scanned(file).visits)
        invariant recordCount + |Walk(Peeks(file), pos).visits| == |Scanned(file).visits|
        invariant Walk(Peeks(file), pos).ok == Scanned(file).ok
        decreases |file| - pos
      {
        ghost var table, here := Peeks(file), pos;
        var seen := Glance(file, pos);
        assert table[here] == seen;
        WalkStep(table, here);
        if seen.Broken? { return false; }
        index := index[seen.offset := pos];
        if seen.offset > headOffset { headOffset := seen.offset; }
        recordCount := recordCount + 1;
        if seen.Cut? { return false; }
        pos := seen.to;
      }
      return true;
    }

    method FindRecord(offset: uint64) returns (found: Found)
      ensures found == Find(file, index, offset)
    {
      if offset !in index { return Missing; }
      var pos := index[offset];
      if pos > |file| { return Unreadable; }
      var record := DecodeRecord(file[pos..]);
      found := if record.None? then Unreadable else Found(record.value);
    }

    /** Reads up to `count` records at successive offsets, until one is missing. */
    method ReadRecords(start: uint64, count: nat) returns (records: seq<Record>, ok: bool)
      requires count < 0x1_0000_0000
      ensures records == Fetched(file, index, start, count).0
      ensures ok == Fetched(file, index, start, count).1
    {
      records := [];
      var i := 0;
      ghost var finds := Finds(file, index, start, count);
      assert finds[0..] == finds;
      while i < count
        invariant i <= count
        invariant Yield(finds).0 == records + Yield(finds[i..]).0
        invariant Yield(finds).1 == Yield(finds[i..]).1
      {
        assert finds[i..][0] == finds[i];
        assert finds[i..][1..] == finds[i + 1..];
        var found := FindRecord((start + i) % WRAP);
        assert found == finds[i];
        if found.Missing? { return records, true; }
        if found.Unreadable? { return records, false; }
        records := records + [found.record];
        i := i + 1;
      }
      return records, true;
    }
  }
}

/** The demo snapshot file: a magic, a version, and seven length-prefixed
    vectors, written and read back field by field. */
module SnapshotFile {
  import opened Bytes
  import opened NumberTheory

  datatype Result<T> = Ok(value: T) | Err {
    predicate IsFailure() { Err? }
    function PropagateFailure<U>(): Result<U> requires Err? { Err }
    function Extract(): T requires Ok? { value }
  }

  /** "RTFWSNAP" */
  const Magic: Bytes := [82, 84, 70, 87, 83, 78, 65, 80]
  const Version := 1
  const MaxBytes := 64 * 1024 * 1024

  type Vector = seq<nat>

  /** Doubles are kept as their 64-bit patterns. */
  datatype Snapshot = Snapshot(simState: Vector, throttle: Vector, force: Vector, pos: Vector, vel: Vector,
                               sparse: Vector, dense: Vector)

  predicate Elements(vs: Vector, w: nat) {
    && |vs| < Pow256(8)
    && forall i :: 0 <= i < |vs| ==> vs[i] < Pow256(w)
  }

  /** What the types of the source hold: bytes, and 64-bit words or doubles. */
  predicate Octets(vs: Vector) {
    |vs| < 0x1_0000_0000_0000_0000 && forall i :: 0 <= i < |vs| ==> vs[i] < 256
  }

  predicate Words(vs: Vector) {
    |vs| < 0x1_0000_0000_0000_0000 && forall i :: 0 <= i < |vs| ==> vs[i] < 0x1_0000_0000_0000_0000
  }

  predicate Storable(s: Snapshot) {
    && Octets(s.simState) && Words(s.throttle) && Words(s.force) && Words(s.pos) && Words(s.vel)
    && Words(s.sparse) && Words(s.dense)
  }

  /** The reader's bound on the length of one vector. */
  predicate Admitted(vs: Vector, w: nat) {
    w > 0 && |vs| <= MaxBytes / w
  }

  // ---- What is written ----

  function EncodeAll(vs: Vector, w: nat): (bs: Bytes) {
    if vs == [] then [] else Encode(vs[0], w) + EncodeAll(vs[1..], w)
  }

  function EncodeVector(vs: Vector, w: nat): Bytes {
    Encode(|vs|, 8) + EncodeAll(vs, w)
  }

  function Body(s: Snapshot): Bytes {
    EncodeVector(s.simState, 1) + (EncodeVector(s.throttle, 8) + (EncodeVector(s.force, 8) +
    (EncodeVector(s.pos, 8) + (EncodeVector(s.vel, 8) + (EncodeVector(s.sparse, 8) + EncodeVector(s.dense, 8))))))
  }

  function Stored(s: Snapshot): Bytes {
    Magic + Encode(Version, 4) + Body(s)
  }

  // ---- What is read, from the bytes that are left ----

  function DecodeScalar(bs: Bytes, w: nat): Result<(nat, Bytes)> {
    if |bs| < w then Err else Ok((Decode(bs[..w]), bs[w..]))
  }

  function DecodeAll(bs: Bytes, n: nat, w: nat): Vector
    requires n * w <= |bs|
  {
    if n == 0 then []
    else
      assert n * w == w + (n - 1) * w;
      [Decode(bs[..w])] + DecodeAll(bs[w..], n - 1, w)
  }

  function DecodeVector(bs: Bytes, w: nat): Result<(Vector, Bytes)>
    requires w > 0
  {
    var (size, rest) :- DecodeScalar(bs, 8);
    if size == 0 then Ok(([], rest))
    else if size > MaxBytes / w then Err
    else if size * w > |rest| then Err
    else Ok((DecodeAll(rest, size, w), rest[size * w..]))
  }

  function DecodeBody(bs: Bytes): Result<Snapshot> {
    var (simState, bs1) :- DecodeVector(bs, 1);
    var (throttle, bs2) :- DecodeVector(bs1, 8);
    var (force, bs3) :- DecodeVector(bs2, 8);
    var (pos, bs4) :- DecodeVector(bs3, 8);
    var (vel, bs5) :- DecodeVector(bs4, 8);
    var (sparse, bs6) :- DecodeVector(bs5, 8);
    var (dense, trailing) :- DecodeVector(bs6, 8);
    Ok(Snapshot(simState, throttle, force, pos, vel, sparse, dense))
  }

  function Loaded(file: Bytes): Result<Snapshot> {
    if |file| > MaxBytes || |file| < 8 || file[..8] != Magic then Err
    else
      var (version, rest) :- DecodeScalar(file[8..], 4);
      if version != Version then Err else DecodeBody(rest)
  }

  // ---- Round trip ----

  lemma {:induction false} EncodeAllLength(vs: Vector, w: nat)
    ensures |EncodeAll(vs, w)| == |vs| * w
  {
    if vs != [] {
      EncodeAllLength(vs[1..], w);
      assert |vs| * w == w + (|vs| - 1) * w;
    }
  }

  lemma ScalarReadsBack(v: nat, w: nat, rest: Bytes)
    requires v < Pow256(w)
    ensures DecodeScalar(Encode(v, w) + rest, w) == Ok((v, rest))
  {
    var bs := Encode(v, w) + rest;
    assert bs[..w] == Encode(v, w) && bs[w..] == rest;
    DecodeEncode(v, w);
    DivisionIsUnique(v, Pow256(w), 0, v);
  }

  lemma {:induction false} AllReadsBack(vs: Vector, w: nat, rest: Bytes)
    requires Elements(vs, w)
    ensures |vs| * w <= |EncodeAll(vs, w) + rest|
    ensures DecodeAll(EncodeAll(vs, w) + rest, |vs|, w) == vs
  {
    EncodeAllLength(vs, w);
    if vs != [] {
      var tail := EncodeAll(vs[1..], w) + rest;
      assert EncodeAll(vs, w) + rest == Encode(vs[0], w) + tail;
      ScalarReadsBack(vs[0], w, tail);
      AllReadsBack(vs[1..], w, rest);
    }
  }

  /** A vector reads back exactly when the size policy admits it. */
  lemma VectorReadsBack(vs: Vector, w: nat, rest: Bytes)
    requires w > 0 && Elements(vs, w)
    ensures DecodeVector(EncodeVector(vs, w) + rest, w)
         == if Admitted(vs, w) then Ok((vs, rest)) else Err
  {
    var body := EncodeAll(vs, w) + rest;
    assert EncodeVector(vs, w) + rest == Encode(|vs|, 8) + body;
    ScalarReadsBack(|vs|, 8, body);
    AllReadsBack(vs, w, rest);
    EncodeAllLength(vs, w);
    assert body[|vs| * w..] == rest;
  }

  lemma PolicyAdmits(n: nat, w: nat, max: nat)
    requires w > 0 && n * w <= max
    ensures n <= max / w
  {
    var k := n - max / w;
    assert k * w == n * w - (max / w) * w;
    MultipleBounds(k, w);
  }

  lemma Powers()
    ensures Pow256(1) == 256 && Pow256(8) == 0x1_0000_0000_0000_0000
  {
    assert Pow256(2) == 0x1_0000 && Pow256(4) == 0x1_0000_0000 && Pow256(6) == 0x1_0000_0000_0000;
  }

  lemma ElementsOf(vs: Vector)
    ensures Octets(vs) <==> Elements(vs, 1)
    ensures Words(vs) <==> Elements(vs, 8)
  {
    Powers();
  }

  /** A vector that fits into a file within the policy is admitted. */
  lemma FitsInFile(vs: Vector, w: nat, max: nat)
    requires w > 0 && |EncodeVector(vs, w)| <= max == MaxBytes
    ensures Admitted(vs, w)
  {
    EncodeAllLength(vs, w);
    PolicyAdmits(|vs|, w, max);
  }

  predicate AllAdmitted(s: Snapshot) {
    && Admitted(s.simState, 1) && Admitted(s.throttle, 8) && Admitted(s.force, 8) && Admitted(s.pos, 8)
    && Admitted(s.vel, 8) && Admitted(s.sparse, 8) && Admitted(s.dense, 8)
  }

  lemma BodyReadsBack(s: Snapshot, trailing: Bytes)
    requires Storable(s)
    ensures DecodeBody(Body(s) + trailing) == if AllAdmitted(s) then Ok(s) else Err
  {
    var bs6 := EncodeVector(s.dense, 8) + trailing;
    var bs5 := EncodeVector(s.sparse, 8) + bs6;
    var bs4 := EncodeVector(s.vel, 8) + bs5;
    var bs3 := EncodeVector(s.pos, 8) + bs4;
    var bs2 := EncodeVector(s.force, 8) + bs3;
    var bs1 := EncodeVector(s.throttle, 8) + bs2;
    assert Body(s) + trailing == EncodeVector(s.simState, 1) + bs1;
    AllElements(s);
    VectorReadsBack(s.simState, 1, bs1);
    VectorReadsBack(s.throttle, 8, bs2);
    VectorReadsBack(s.force, 8, bs3);
    VectorReadsBack(s.pos, 8, bs4);
    VectorReadsBack(s.vel, 8, bs5);
    VectorReadsBack(s.sparse, 8, bs6);
    VectorReadsBack(s.dense, 8, trailing);
  }

  lemma AllElements(s: Snapshot)
    ensures Storable(s) <==>
            && Elements(s.simState, 1) && Elements(s.throttle, 8) && Elements(s.force, 8) && Elements(s.pos, 8)
            && Elements(s.vel, 8) && Elements(s.sparse, 8) && Elements(s.dense, 8)
  {
    ElementsOf(s.simState);
    ElementsOf(s.throttle);
    ElementsOf(s.force);
    ElementsOf(s.pos);
    ElementsOf(s.vel);
    ElementsOf(s.sparse);
    ElementsOf(s.dense);
  }

  /** Loading what was stored gives the snapshot back exactly when the file is
      within the size policy; bytes after the last vector are ignored. */
  lemma LoadAfterStore(s: Snapshot, trailing: Bytes)
    requires Storable(s)
    ensures Loaded(Stored(s) + trailing) == if |Stored(s) + trailing| <= 67_108_864 then Ok(s) else Err
  {
    var file, tail := Stored(s) + trailing, Body(s) + trailing;
    if |file| <= MaxBytes {
      HeaderReadsBack(file, tail);
      BodyFits(s, MaxBytes);
      BodyReadsBack(s, trailing);
    }
  }

  lemma BodyFits(s: Snapshot, max: nat)
    requires |Body(s)| <= max == MaxBytes
    ensures AllAdmitted(s)
  {
    FitsInFile(s.simState, 1, max);
    FitsInFile(s.throttle, 8, max);
    FitsInFile(s.force, 8, max);
    FitsInFile(s.pos, 8, max);
    FitsInFile(s.vel, 8, max);
    FitsInFile(s.sparse, 8, max);
    FitsInFile(s.dense, 8, max);
  }

  lemma HeaderReadsBack(file: Bytes, tail: Bytes)
    requires file == Magic + Encode(Version, 4) + tail
    ensures |file| >= 8 && file[..8] == Magic && DecodeScalar(file[8..], 4) == Ok((Version, tail))
  {
    assert file[8..] == Encode(Version, 4) + tail;
    ScalarReadsBack(Version, 4, tail);
  }

  /** The stored form byte by byte: twelve bytes of header, then for every vector its length
      in eight bytes and its elements, one byte each for the state and eight for the others. */
  lemma StoredLayout(s: Snapshot)
    ensures Stored(s) == [82, 84, 70, 87, 83, 78, 65, 80, 1, 0, 0, 0]
                         + EncodeVector(s.simState, 1) + EncodeVector(s.throttle, 8) + EncodeVector(s.force, 8)
                         + EncodeVector(s.pos, 8) + EncodeVector(s.vel, 8) + EncodeVector(s.sparse, 8)
                         + EncodeVector(s.dense, 8)
    ensures |Stored(s)| == 12 + 7 * 8 + |s.simState| + 8 * (|s.throttle| + |s.force| + |s.pos| + |s.vel|
                                                            + |s.sparse| + |s.dense|)
  {
    OneInFour();
    EncodeAllLength(s.simState, 1);
    EncodeAllLength(s.throttle, 8);
    EncodeAllLength(s.force, 8);
    EncodeAllLength(s.pos, 8);
    EncodeAllLength(s.vel, 8);
    EncodeAllLength(s.sparse, 8);
    EncodeAllLength(s.dense, 8);
    Regroup(Magic + Encode(Version, 4), EncodeVector(s.simState, 1), EncodeVector(s.throttle, 8),
            EncodeVector(s.force, 8), EncodeVector(s.pos, 8), EncodeVector(s.vel, 8), EncodeVector(s.sparse, 8),
            EncodeVector(s.dense, 8));
  }

  lemma OneInFour()
    ensures Magic + Encode(Version, 4) == [82, 84, 70, 87, 83, 78, 65, 80, 1, 0, 0, 0]
  {
    assert Encode(0, 3) == [0] + Encode(0, 2) && Encode(0, 2) == [0] + Encode(0, 1) && Encode(0, 1) == [0];
    assert Encode(Version, 4) == [1] + Encode(0, 3) == [1, 0, 0, 0];
  }

  lemma Regroup(a: Bytes, b: Bytes, c: Bytes, d: Bytes, e: Bytes, f: Bytes, g: Bytes, h: Bytes)
    ensures a + (b + (c + (d + (e + (f + (g + h)))))) == a + b + c + d + e + f + g + h
  {
    assert a + b + c + d + e + f + g + h == a + b + c + d + e + f + (g + h);
    assert a + b + c + d + e + f + (g + h) == a + b + c + d + e + (f + (g + h));
    assert a + b + c + d + e + (f + (g + h)) == a + b + c + d + (e + (f + (g + h)));
    assert a + b + c + d + (e + (f + (g + h))) == a + b + c + (d + (e + (f + (g + h))));
    assert a + b + c + (d + (e + (f + (g + h)))) == a + b + (c + (d + (e + (f + (g + h)))));
  }

  lemma {:induction false} ElementByte(vs: Vector, w: nat, i: nat, j: nat, at: nat)
    requires i < |vs| && j < w && at == i * w + j
    ensures at < |EncodeAll(vs, w)| && EncodeAll(vs, w)[at] == vs[i] / Pow256(j) % 256
  {
    if i == 0 {
      EncodeDigit(vs[0], w, j);
    } else {
      assert i * w == w + (i - 1) * w;
      ElementByte(vs[1..], w, i - 1, j, at - w);
    }
  }

  /** A vector byte by byte: the eight digits of its length, then w digits of every element. */
  lemma LengthByte(vs: Vector, w: nat, d: nat)
    requires d < 8
    ensures EncodeVector(vs, w)[d] == |vs| / Pow256(d) % 256
  {
    EncodeDigit(|vs|, 8, d);
  }

  lemma VectorByte(vs: Vector, w: nat, i: nat, j: nat, at: nat)
    requires i < |vs| && j < w && at == 8 + (i * w + j)
    ensures at < |EncodeVector(vs, w)| && EncodeVector(vs, w)[at] == vs[i] / Pow256(j) % 256
  {
    ElementByte(vs, w, i, j, at - 8);
  }

  /** A simulation state of 64 MiB, whatever its bytes, is stored and does not load. */
  lemma OversizedDoesNotLoad(s: Snapshot)
    requires Storable(s) && |s.simState| == 67_108_864
    ensures Loaded(Stored(s)) == Err
  {
    StoredLayout(s);
    LoadAfterStore(s, []);
    assert Stored(s) + [] == Stored(s);
  }

  // ---- What loads was stored ----

  lemma {:induction false} AllSound(bs: Bytes, n: nat, w: nat, size: nat)
    requires size == n * w <= |bs|
    ensures |DecodeAll(bs, n, w)| == n && EncodeAll(DecodeAll(bs, n, w), w) == bs[..size]
    ensures forall v :: v in DecodeAll(bs, n, w) ==> v < Pow256(w)
  {
    if n > 0 {
      assert size == w + (n - 1) * w;
      AllSound(bs[w..], n - 1, w, size - w);
      EncodeDecode(bs[..w]);
      SplitPrefix(bs, w, size);
      FirstAndRest(Decode(bs[..w]), DecodeAll(bs[w..], n - 1, w));
    }
  }

  lemma SplitPrefix(bs: Bytes, w: nat, size: nat)
    requires w <= size <= |bs|
    ensures bs[..size] == bs[..w] + bs[w..][..size - w]
  {
  }

  lemma FirstAndRest(v: nat, rest: Vector)
    ensures ([v] + rest)[0] == v && ([v] + rest)[1..] == rest
  {
  }

  lemma PayloadSound(tail: Bytes, n: nat, w: nat, size: nat, vs: Vector)
    requires size == n * w <= |tail| && n < Pow256(8) && vs == DecodeAll(tail, n, w)
    ensures |vs| == n && Elements(vs, w) && tail == EncodeAll(vs, w) + tail[size..]
  {
    AllSound(tail, n, w, size);
    assert tail == tail[..size] + tail[size..];
    assert forall i :: 0 <= i < |vs| ==> vs[i] in vs;
  }

  lemma CountSound(bs: Bytes, n: nat, tail: Bytes)
    requires DecodeScalar(bs, 8) == Ok((n, tail))
    ensures n < Pow256(8) && bs == Encode(n, 8) + tail
  {
    EncodeDecode(bs[..8]);
    assert bs == bs[..8] + tail;
  }

  lemma VectorSound(bs: Bytes, w: nat, vs: Vector, rest: Bytes)
    requires w > 0 && DecodeVector(bs, w) == Ok((vs, rest))
    ensures Elements(vs, w) && Admitted(vs, w) && bs == EncodeVector(vs, w) + rest
  {
    var n, tail := DecodeScalar(bs, 8).value.0, DecodeScalar(bs, 8).value.1;
    CountSound(bs, n, tail);
    if n == 0 {
      PolicyAdmits(0, w, MaxBytes);
    } else {
      PayloadSound(tail, n, w, n * w, vs);
    }
    Rejoin(Encode(n, 8), EncodeAll(vs, w), rest);
  }

  lemma Rejoin(head: Bytes, body: Bytes, rest: Bytes)
    ensures head + (body + rest) == head + body + rest && [] + rest == rest
  {
  }

  lemma BodySound(bs: Bytes, s: Snapshot) returns (trailing: Bytes)
    requires DecodeBody(bs) == Ok(s)
    ensures Storable(s) && AllAdmitted(s) && bs == Body(s) + trailing
  {
    var bs1 := DecodeVector(bs, 1).value.1;
    var bs2 := DecodeVector(bs1, 8).value.1;
    var bs3 := DecodeVector(bs2, 8).value.1;
    var bs4 := DecodeVector(bs3, 8).value.1;
    var bs5 := DecodeVector(bs4, 8).value.1;
    var bs6 := DecodeVector(bs5, 8).value.1;
    trailing := DecodeVector(bs6, 8).value.1;
    VectorSound(bs, 1, s.simState, bs1);
    VectorSound(bs1, 8, s.throttle, bs2);
    VectorSound(bs2, 8, s.force, bs3);
    VectorSound(bs3, 8, s.pos, bs4);
    VectorSound(bs4, 8, s.vel, bs5);
    VectorSound(bs5, 8, s.sparse, bs6);
    VectorSound(bs6, 8, s.dense, trailing);
    AllElements(s);
    BodyBegins(s, trailing);
  }

  lemma BodyBegins(s: Snapshot, trailing: Bytes)
    ensures Body(s) + trailing ==
            EncodeVector(s.simState, 1) + (EncodeVector(s.throttle, 8) + (EncodeVector(s.force, 8) +
            (EncodeVector(s.pos, 8) + (EncodeVector(s.vel, 8) + (EncodeVector(s.sparse, 8) +
            (EncodeVector(s.dense, 8) + trailing))))))
  {
  }

  lemma HeaderSound(file: Bytes)
    requires 12 <= |file| && file[..8] == Magic && Decode(file[8..][..4]) == Version
    ensures file == Magic + Encode(Version, 4) + file[12..] && file[8..][4..] == file[12..]
  {
    EncodeDecode(file[8..][..4]);
    assert file[8..][..4] == file[8..12];
  }

  lemma LoadedWasStored(file: Bytes, s: Snapshot) returns (trailing: Bytes)
    requires Loaded(file) == Ok(s)
    ensures Storable(s) && AllAdmitted(s) && |file| <= 67_108_864 && file == Stored(s) + trailing
  {
    HeaderSound(file);
    trailing := BodySound(file[12..], s);
    Rejoin(Magic + Encode(Version, 4), Body(s), trailing);
  }

  /** A file loads as a snapshot exactly when it is within the policy and begins with that
      snapshot's stored form. */
  lemma LoadIsExact(file: Bytes, s: Snapshot)
    ensures Loaded(file) == Ok(s) <==> Storable(s) && |file| <= 67_108_864 && Stored(s) <= file
  {
    if Loaded(file) == Ok(s) {
      var trailing := LoadedWasStored(file, s);
      PrefixOf(Stored(s), trailing, file);
    }
    if Storable(s) && |file| <= 67_108_864 && Stored(s) <= file {
      StoredLoads(file, s, Stored(s));
    }
  }

  lemma StoredLoads(file: Bytes, s: Snapshot, whole: Bytes)
    requires Storable(s) && |file| <= 67_108_864 && whole == Stored(s) && whole <= file
    ensures Loaded(file) == Ok(s)
  {
    PrefixRest(whole, file);
    LoadAfterStore(s, file[|whole|..]);
  }

  lemma PrefixOf(a: Bytes, b: Bytes, file: Bytes)
    requires file == a + b
    ensures a <= file
  {
  }

  lemma PrefixRest(a: Bytes, file: Bytes)
    requires a <= file
    ensures file == a + file[|a|..]
  {
  }

  // ---- Truncation ----

  /** No snapshot's vectors continue those of an admitted one. */
  lemma BodyIsPrefixFree(s: Snapshot, t: Snapshot, more: Bytes)
    requires Storable(s) && Storable(t) && AllAdmitted(t) && Body(s) == Body(t) + more
    ensures s == t
  {
    assert Body(s) + [] == Body(s);
    BodyReadsBack(s, []);
    BodyReadsBack(t, more);
  }

  lemma StoredContinues(head: Bytes, b: Bytes, c: Bytes, n: nat, trailing: Bytes)
    requires n <= |head + b| && (head + b)[..n] == head + c + trailing
    ensures b == c + (trailing + (head + b)[n..])
  {
    assert head + b == head + c + trailing + (head + b)[n..];
    assert b == (head + b)[|head|..];
  }

  /** Every strict prefix of a stored snapshot is rejected. */
  lemma TruncationIsRejected(s: Snapshot, n: nat)
    requires Storable(s) && n < |Stored(s)|
    ensures Loaded(Stored(s)[..n]) == Err
  {
    var r := Loaded(Stored(s)[..n]);
    if r.Ok? {
      var trailing := LoadedWasStored(Stored(s)[..n], r.value);
      StoredContinues(Magic + Encode(Version, 4), Body(s), Body(r.value), n, trailing);
      BodyIsPrefixFree(s, r.value, trailing + Stored(s)[n..]);
    }
  }

  // ---- The streams ----

  class OutFile {
    var data: Bytes

    constructor ()
      ensures data == []
    {
      data := [];
    }

    method Write(bytes: Bytes)
      modifies this
      ensures data == old(data) + bytes
    {
      data := data + bytes;
    }

    method WriteScalar(v: nat, w: nat)
      modifies this
      ensures data == old(data) + Encode(v, w)
    {
      Write(Encode(v, w));
    }

    method WriteVector(vs: Vector, w: nat)
      modifies this
      ensures data == old(data) + EncodeVector(vs, w)
    {
      WriteScalar(|vs|, 8);
      if |vs| == 0 {
        return;
      }
      Write(EncodeAll(vs, w));
    }
  }

  method StoreSnapshot(s: Snapshot) returns (data: Bytes)
    ensures data == Stored(s)
  {
    var out := new OutFile();
    out.Write(Magic);
    out.WriteScalar(Version, 4);
    out.WriteVector(s.simState, 1);
    out.WriteVector(s.throttle, 8);
    out.WriteVector(s.force, 8);
    out.WriteVector(s.pos, 8);
    out.WriteVector(s.vel, 8);
    out.WriteVector(s.sparse, 8);
    out.WriteVector(s.dense, 8);
    data := out.data;
    Regroup(Magic + Encode(Version, 4), EncodeVector(s.simState, 1), EncodeVector(s.throttle, 8),
            EncodeVector(s.force, 8), EncodeVector(s.pos, 8), EncodeVector(s.vel, 8), EncodeVector(s.sparse, 8),
            EncodeVector(s.dense, 8));
    assert [] + Magic == Magic;
  }

  class InFile {
    const data: Bytes
    var pos: nat

    constructor (data: Bytes)
      ensures this.data == data && pos == 0
    {
      this.data := data;
      pos := 0;
    }

    ghost predicate Valid()
      reads this
    {
      pos <= |data|
    }

    /** The bytes not read yet. */
    function Rest(): Bytes
      requires Valid()
      reads this
    {
      data[pos..]
    }

    method ReadScalar(w: nat) returns (r: Result<nat>)
      requires Valid()
      modifies this
      ensures Valid()
      ensures match DecodeScalar(old(Rest()), w)
              case Err => r == Err
              case Ok(v) => r == Ok(v.0) && Rest() == v.1
    {
      if |data| - pos < w {
        return Err;
      }
      assert data[pos..][..w] == data[pos..pos + w];
      r := Ok(Decode(data[pos..pos + w]));
      pos := pos + w;
    }

    method ReadVector(w: nat) returns (r: Result<Vector>)
      requires Valid() && w > 0
      modifies this
      ensures Valid()
      ensures match DecodeVector(old(Rest()), w)
              case Err => r == Err
              case Ok(v) => r == Ok(v.0) && Rest() == v.1
    {
      var size :- ReadScalar(8);
      if size == 0 {
        return Ok([]);
      }
      if size > MaxBytes / w {
        return Err;
      }
      if size * w > |data| - pos {
        return Err;
      }
      r := Ok(DecodeAll(data[pos..], size, w));
      assert data[pos..][size * w..] == data[pos + size * w..];
      pos := pos + size * w;
    }
  }

  method LoadSnapshot(file: Bytes) returns (r: Result<Snapshot>)
    ensures r == Loaded(file)
  {
    if |file| > MaxBytes {
      return Err;
    }
    var input := new InFile(file);
    if |file| < 8 {
      return Err;
    }
    if file[..8] != Magic {
      return Err;
    }
    input.pos := 8;
    var version :- input.ReadScalar(4);
    if version != Version {
      return Err;
    }
    var simState :- input.ReadVector(1);
    var throttle :- input.ReadVector(8);
    var force :- input.ReadVector(8);
    var pos :- input.ReadVector(8);
    var vel :- input.ReadVector(8);
    var sparse :- input.ReadVector(8);
    var dense :- input.ReadVector(8);
    r := Ok(Snapshot(simState, throttle, force, pos, vel, sparse, dense));
  }
}

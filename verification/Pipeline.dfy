/** One frame of the simulated CPU, CUDA, host, XDMA, CPU pipeline: five buffers
    of little-endian 32-bit words changed in place. */
module Pipeline {
  import opened Bytes
  import opened NumberTheory

  const Elements := 8
  const PayloadBytes := 32
  const CardOffset := 64
  const TriggerRegister := 1
  const U32: nat := 0x1_0000_0000
  const U64: nat := 0x1_0000_0000_0000_0000

  function InputValue(frame: nat, index: nat): nat {
    (frame * 100 + index) % U64 % U32
  }

  function CudaValue(input: nat): nat {
    (input * 2 + 3) % U32
  }

  function TriggerValue(frame: nat): nat {
    (frame * 11 + 5) % U64 % U32
  }

  function AddU32(x: nat, y: nat): (s: nat)
    ensures s < U32
  {
    (x + y) % U32
  }

  function OutputValue(frame: nat, index: nat): nat {
    AddU32(CudaValue(InputValue(frame, index)), TriggerValue(frame))
  }

  lemma SameRemainder(a: int, b: int, k: int, d: int)
    requires d > 0 && a == b + k * d
    ensures a % d == b % d
  {
    DivisionIsUnique(a, d, b / d + k, b % d);
  }

  lemma WrapTwice(x: nat)
    ensures x % U64 % U32 == x % U32
  {
  }

  /** The inputs, the kernel results and the trigger of a frame, wrapped once. */
  lemma StagesAreLinear(frame: nat, index: nat)
    ensures InputValue(frame, index) == (100 * frame + index) % 0x1_0000_0000
    ensures CudaValue(InputValue(frame, index)) == (200 * frame + 2 * index + 3) % 0x1_0000_0000
    ensures TriggerValue(frame) == (11 * frame + 5) % 0x1_0000_0000
  {
    var x := frame * 100 + index;
    WrapTwice(x);
    WrapTwice(frame * 11 + 5);
    SameRemainder(2 * x + 3, x % U32 * 2 + 3, 2 * (x / U32), U32);
  }

  /** Through all wrap-arounds the pipeline computes one linear form modulo 2^32. */
  lemma OutputIsLinear(frame: nat, index: nat)
    ensures OutputValue(frame, index) == (211 * frame + 2 * index + 8) % 0x1_0000_0000
  {
    var x, t := frame * 100 + index, frame * 11 + 5;
    WrapTwice(x);
    WrapTwice(t);
    var xi, ti := x % U32, t % U32;
    var c := (xi * 2 + 3) % U32;
    assert x == xi + (x / U32) * U32;
    assert t == ti + (t / U32) * U32;
    assert xi * 2 + 3 == c + ((xi * 2 + 3) / U32) * U32;
    SameRemainder(211 * frame + 2 * index + 8, c + ti,
                  2 * (x / U32) + t / U32 + (xi * 2 + 3) / U32, U32);
  }

  /** The word at an index of a byte window. */
  ghost function Word(a: array<Byte>, base: nat, i: nat): nat
    requires base + 4 * i + 4 <= a.Length
    reads a
  {
    Decode(a[base + 4 * i..base + 4 * i + 4])
  }

  method ReadU32(a: array<Byte>, base: nat, i: nat) returns (v: nat)
    requires base + 4 * i + 4 <= a.Length
    ensures v == Word(a, base, i) < U32
  {
    var o := base + 4 * i;
    var b0: nat, b1: nat, b2: nat, b3: nat := a[o], a[o + 1], a[o + 2], a[o + 3];
    v := b0 + 256 * (b1 + 256 * (b2 + 256 * b3));
    FourBytes(a[o..o + 4]);
  }

  lemma FourBytes(bs: Bytes)
    requires |bs| == 4
    ensures Decode(bs) == bs[0] + 256 * (bs[1] + 256 * (bs[2] + 256 * bs[3])) < U32
  {
    assert bs[1..][1..] == bs[2..] && bs[2..][1..] == bs[3..] && bs[3..][1..] == [];
    assert Decode(bs[3..]) == bs[3];
    assert Decode(bs[2..]) == bs[2] + 256 * Decode(bs[2..][1..]);
    assert Decode(bs[1..]) == bs[1] + 256 * Decode(bs[1..][1..]);
  }

  method WriteU32(a: array<Byte>, base: nat, i: nat, v: nat)
    requires base + 4 * i + 4 <= a.Length && v < U32
    modifies a
    ensures Word(a, base, i) == v
    ensures forall j :: 0 <= j < a.Length && !(base + 4 * i <= j < base + 4 * i + 4) ==> a[j] == old(a[j])
    ensures forall k :: 0 <= k && base + 4 * k + 4 <= a.Length && k != i ==> Word(a, base, k) == old(Word(a, base, k))
  {
    var o := base + 4 * i;
    a[o] := v % 256;
    a[o + 1] := v / 256 % 256;
    a[o + 2] := v / 65536 % 256;
    a[o + 3] := v / 16777216 % 256;
    FourBytes(a[o..o + 4]);
    Digits(v);
    forall k | 0 <= k && base + 4 * k + 4 <= a.Length && k != i ensures Word(a, base, k) == old(Word(a, base, k)) {
      assert a[base + 4 * k..base + 4 * k + 4] == old(a[base + 4 * k..base + 4 * k + 4]);
    }
  }

  lemma ByteAndRest(v: nat)
    ensures v == v % 256 + 256 * (v / 256)
  {
  }

  lemma HighByte(v: nat, d: nat)
    requires d > 0
    ensures v / d / 256 == v / (256 * d)
  {
    var q, r := v / (256 * d), v % (256 * d);
    var h, l := r / d, r % d;
    assert v == (256 * q + h) * d + l;
    DivisionIsUnique(v, d, 256 * q + h, l);
    assert h >= 256 ==> h * d >= 256 * d;
    DivisionIsUnique(256 * q + h, 256, q, h);
  }

  lemma Digits(v: nat)
    requires v < U32
    ensures v == v % 256 + 256 * (v / 256 % 256 + 256 * (v / 65536 % 256 + 256 * (v / 16777216 % 256)))
  {
    HighByte(v, 256);
    HighByte(v, 65536);
    ByteAndRest(v);
    ByteAndRest(v / 256);
    ByteAndRest(v / 65536);
    assert v / 16777216 < 256;
  }

  /** Equal words are equal bytes. */
  lemma {:induction false} WordsAreBytes(x: Bytes, y: Bytes)
    requires |x| == |y| && Decode(x) == Decode(y)
    ensures x == y
  {
    EncodeDecode(x);
    EncodeDecode(y);
  }

  class Scenario {
    const cudaStage: array<Byte>
    const device: array<Byte>
    const xdmaStage: array<Byte>
    const card: array<Byte>
    const control: array<nat>
    const expected: array<Byte>

    ghost predicate Valid() {
      && cudaStage.Length == device.Length == xdmaStage.Length == expected.Length == PayloadBytes
      && card.Length == 256 && control.Length == 4
      && cudaStage != device && cudaStage != xdmaStage && cudaStage != card && cudaStage != expected
      && device != xdmaStage && device != card && device != expected
      && xdmaStage != card && xdmaStage != expected && card != expected
    }

    /** Staging, mirror and card memory start with whatever an earlier frame left. */
    constructor (cudaStage: array<Byte>, device: array<Byte>, xdmaStage: array<Byte>, card: array<Byte>,
                 control: array<nat>, expected: array<Byte>)
      ensures this.cudaStage == cudaStage && this.device == device && this.xdmaStage == xdmaStage
      ensures this.card == card && this.control == control && this.expected == expected
    {
      this.cudaStage, this.device, this.xdmaStage := cudaStage, device, xdmaStage;
      this.card, this.control, this.expected := card, control, expected;
    }

    method Prepare(frame: nat)
      requires Valid()
      modifies xdmaStage, cudaStage, expected
      ensures forall i :: 0 <= i < Elements ==> Word(cudaStage, 0, i) == InputValue(frame, i)
      ensures forall i :: 0 <= i < Elements ==> Word(expected, 0, i) == OutputValue(frame, i)
      ensures forall j :: 0 <= j < PayloadBytes ==> xdmaStage[j] == 0
    {
      for j := 0 to PayloadBytes
        invariant forall k :: 0 <= k < j ==> xdmaStage[k] == 0
      {
        xdmaStage[j] := 0;
      }
      for index := 0 to Elements
        invariant forall i :: 0 <= i < index ==> Word(cudaStage, 0, i) == InputValue(frame, i)
        invariant forall i :: 0 <= i < index ==> Word(expected, 0, i) == OutputValue(frame, i)
        invariant forall j :: 0 <= j < PayloadBytes ==> xdmaStage[j] == 0
      {
        WriteU32(cudaStage, 0, index, InputValue(frame, index));
        WriteU32(expected, 0, index, OutputValue(frame, index));
      }
    }

    method Upload()
      requires Valid()
      modifies device
      ensures device[..] == cudaStage[..]
    {
      Copy(cudaStage, 0, device, 0);
    }

    /** The replayed graph: every word of the mirror in place. */
    method GraphLaunch()
      requires Valid()
      modifies device
      ensures forall i :: 0 <= i < Elements ==> Word(device, 0, i) == CudaValue(old(Word(device, 0, i)))
    {
      for index := 0 to Elements
        invariant forall i :: 0 <= i < index ==> Word(device, 0, i) == CudaValue(old(Word(device, 0, i)))
        invariant forall i :: index <= i < Elements ==> Word(device, 0, i) == old(Word(device, 0, i))
      {
        var v := ReadU32(device, 0, index);
        WriteU32(device, 0, index, CudaValue(v));
      }
    }

    method Download()
      requires Valid()
      modifies cudaStage
      ensures cudaStage[..] == device[..]
    {
      Copy(device, 0, cudaStage, 0);
    }

    /** Checks the CUDA result and hands it over. */
    method Bridge(frame: nat) returns (ok: bool)
      requires Valid()
      modifies xdmaStage
      ensures ok <==> forall i :: 0 <= i < Elements ==> old(Word(cudaStage, 0, i)) == CudaValue(InputValue(frame, i))
      ensures ok ==> xdmaStage[..] == cudaStage[..]
    {
      for index := 0 to Elements
        invariant forall i :: 0 <= i < index ==> Word(cudaStage, 0, i) == CudaValue(InputValue(frame, i))
      {
        var v := ReadU32(cudaStage, 0, index);
        if v != CudaValue(InputValue(frame, index)) {
          return false;
        }
      }
      Copy(cudaStage, 0, xdmaStage, 0);
      ok := true;
    }

    method HostToCard()
      requires Valid()
      modifies card
      ensures card[CardOffset..CardOffset + PayloadBytes] == xdmaStage[..]
      ensures forall j :: 0 <= j < card.Length && !(CardOffset <= j < CardOffset + PayloadBytes) ==>
                card[j] == old(card[j])
    {
      Copy(xdmaStage, 0, card, CardOffset);
    }

    method ControlWrite(value: nat)
      requires Valid()
      modifies control
      ensures control[TriggerRegister] == value
      ensures forall j :: 0 <= j < control.Length && j != TriggerRegister ==> control[j] == old(control[j])
    {
      control[TriggerRegister] := value;
    }

    /** The user event: the card adds the trigger to every word of its window. */
    method WaitEvent()
      requires Valid()
      modifies card
      ensures forall i :: 0 <= i < Elements ==>
                Word(card, CardOffset, i) == AddU32(old(Word(card, CardOffset, i)), control[TriggerRegister])
      ensures forall j :: 0 <= j < card.Length && !(CardOffset <= j < CardOffset + PayloadBytes) ==>
                card[j] == old(card[j])
    {
      var trigger := control[TriggerRegister];
      for index := 0 to Elements
        invariant forall i :: 0 <= i < index ==>
                    Word(card, CardOffset, i) == AddU32(old(Word(card, CardOffset, i)), trigger)
        invariant forall i :: index <= i < Elements ==> Word(card, CardOffset, i) == old(Word(card, CardOffset, i))
        invariant forall j :: 0 <= j < card.Length && !(CardOffset <= j < CardOffset + PayloadBytes) ==>
                    card[j] == old(card[j])
      {
        var v := ReadU32(card, CardOffset, index);
        WriteU32(card, CardOffset, index, AddU32(v, trigger));
      }
    }

    /** The event value lands in the first word of the host stage. */
    method DeliverEvent(value: nat)
      requires Valid() && value < U32
      modifies xdmaStage
      ensures Word(xdmaStage, 0, 0) == value
      ensures forall j :: 4 <= j < PayloadBytes ==> xdmaStage[j] == old(xdmaStage[j])
    {
      WriteU32(xdmaStage, 0, 0, value);
    }

    method CardToHost()
      requires Valid()
      modifies xdmaStage
      ensures xdmaStage[..] == card[CardOffset..CardOffset + PayloadBytes]
    {
      Copy(card, CardOffset, xdmaStage, 0);
      assert xdmaStage[..] == xdmaStage[0..0 + PayloadBytes];
    }

    method Validate() returns (ok: bool)
      requires Valid()
      ensures ok <==> xdmaStage[..] == expected[..]
    {
      ok := xdmaStage[..] == expected[..];
    }

    /** Upload, graph and download of the CUDA batch. */
    method RunCuda(frame: nat)
      requires Valid()
      requires forall i :: 0 <= i < Elements ==> Word(cudaStage, 0, i) == InputValue(frame, i)
      modifies cudaStage, device
      ensures forall i :: 0 <= i < Elements ==> Word(cudaStage, 0, i) == CudaValue(InputValue(frame, i))
    {
      Upload();
      forall i | 0 <= i < Elements ensures Word(device, 0, i) == InputValue(frame, i) {
        SameWindow(cudaStage, 0, device, 0, i);
      }
      GraphLaunch();
      Download();
      forall i | 0 <= i < Elements ensures Word(cudaStage, 0, i) == CudaValue(InputValue(frame, i)) {
        SameWindow(device, 0, cudaStage, 0, i);
      }
    }

    /** Transfer to the card, trigger, event and transfer back of the XDMA batch. */
    method RunXdma(frame: nat, event: nat)
      requires Valid() && event < U32
      requires forall i :: 0 <= i < Elements ==> Word(xdmaStage, 0, i) == CudaValue(InputValue(frame, i))
      modifies xdmaStage, card, control
      ensures forall i :: 0 <= i < Elements ==> Word(xdmaStage, 0, i) == OutputValue(frame, i)
      ensures forall j :: 0 <= j < card.Length && !(CardOffset <= j < CardOffset + PayloadBytes) ==>
                card[j] == old(card[j])
      ensures forall j :: 0 <= j < control.Length && j != TriggerRegister ==> control[j] == old(control[j])
    {
      HostToCard();
      forall i | 0 <= i < Elements ensures Word(card, CardOffset, i) == CudaValue(InputValue(frame, i)) {
        SameWindow(xdmaStage, 0, card, CardOffset, i);
      }
      ControlWrite(TriggerValue(frame));
      WaitEvent();
      DeliverEvent(event);
      CardToHost();
      forall i | 0 <= i < Elements ensures Word(xdmaStage, 0, i) == OutputValue(frame, i) {
        SameWindow(card, CardOffset, xdmaStage, 0, i);
      }
    }

    /** A frame in the order of the successful run. Whatever the buffers, the card
        and the control registers held, and whatever the event reports, the bridge
        and the final comparison succeed. */
    method RunFrame(frame: nat, event: nat) returns (bridged: bool, ok: bool)
      requires Valid() && event < 0x1_0000_0000
      modifies cudaStage, device, xdmaStage, card, control, expected
      ensures bridged && ok
      ensures forall i :: 0 <= i < 8 ==> Word(xdmaStage, 0, i) == (211 * frame + 2 * i + 8) % 0x1_0000_0000
      ensures forall j :: 0 <= j < card.Length && !(64 <= j < 96) ==> card[j] == old(card[j])
      ensures forall j :: 0 <= j < control.Length && j != 1 ==> control[j] == old(control[j])
    {
      Prepare(frame);
      RunCuda(frame);
      bridged := Bridge(frame);
      forall i | 0 <= i < Elements ensures Word(xdmaStage, 0, i) == CudaValue(InputValue(frame, i)) {
        SameWindow(cudaStage, 0, xdmaStage, 0, i);
      }
      RunXdma(frame, event);
      SameWordsSameBytes(xdmaStage, expected);
      ok := Validate();
      forall i | 0 <= i < Elements ensures Word(xdmaStage, 0, i) == (211 * frame + 2 * i + 8) % U32 {
        OutputIsLinear(frame, i);
      }
    }
  }

  /** `memcpy` of one payload. */
  method Copy(src: array<Byte>, from: nat, dst: array<Byte>, to: nat)
    requires src != dst
    requires from + PayloadBytes <= src.Length && to + PayloadBytes <= dst.Length
    modifies dst
    ensures dst[to..to + PayloadBytes] == src[from..from + PayloadBytes]
    ensures forall j :: 0 <= j < dst.Length && !(to <= j < to + PayloadBytes) ==> dst[j] == old(dst[j])
    ensures to == 0 && dst.Length == PayloadBytes ==> dst[..] == src[from..from + PayloadBytes]
    ensures to == 0 && dst.Length == PayloadBytes && from == 0 && src.Length == PayloadBytes ==> dst[..] == src[..]
  {
    for k := 0 to PayloadBytes
      invariant forall j :: to <= j < to + k ==> dst[j] == src[from + (j - to)]
      invariant forall j :: 0 <= j < dst.Length && !(to <= j < to + k) ==> dst[j] == old(dst[j])
    {
      dst[to + k] := src[from + k];
    }
    assert to == 0 && dst.Length == PayloadBytes ==> dst[..] == dst[to..to + PayloadBytes];
    assert from == 0 && src.Length == PayloadBytes ==> src[..] == src[from..from + PayloadBytes];
  }

  /** Equal windows hold equal words. */
  lemma SameWindow(a: array<Byte>, x: nat, b: array<Byte>, y: nat, i: nat)
    requires i < Elements && x + PayloadBytes <= a.Length && y + PayloadBytes <= b.Length
    requires a[x..x + PayloadBytes] == b[y..y + PayloadBytes]
    ensures Word(a, x, i) == Word(b, y, i)
  {
    var s, t := a[x + 4 * i..x + 4 * i + 4], b[y + 4 * i..y + 4 * i + 4];
    forall k | 0 <= k < 4 ensures s[k] == t[k] {
      assert a[x..x + PayloadBytes][4 * i + k] == b[y..y + PayloadBytes][4 * i + k];
    }
    assert s == t;
  }

  lemma SameWordsSameBytes(a: array<Byte>, b: array<Byte>)
    requires a.Length == b.Length == PayloadBytes
    requires forall i :: 0 <= i < Elements ==> Word(a, 0, i) == Word(b, 0, i)
    ensures a[..] == b[..]
  {
    forall j | 0 <= j < PayloadBytes ensures a[j] == b[j] {
      var i := j / 4;
      assert Word(a, 0, i) == Word(b, 0, i);
      WordsAreBytes(a[0 + 4 * i..0 + 4 * i + 4], b[0 + 4 * i..0 + 4 * i + 4]);
      assert a[4 * i..4 * i + 4][j - 4 * i] == a[j] && b[4 * i..4 * i + 4][j - 4 * i] == b[j];
    }
  }
}

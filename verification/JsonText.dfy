/** What the lexical scanners measure on any byte string: the text outside its string
    literals, as a walk up at every opening and down at every closing bracket. */
module JsonText {
  import opened Bytes
  import opened JsonDepth
  import opened Options

  /** Inside a literal a backslash takes the next byte with it. */
  datatype Unit = Char(b: Byte) | Escape(b: Byte)

  /** A byte outside any literal, or a closed literal. */
  datatype Token = Mark(b: Byte) | Literal(units: seq<Unit>)

  /** A literal that the text does not close, perhaps cut after a backslash. */
  datatype Rest = Rest(units: seq<Unit>, cut: bool)

  datatype Text = Lexed(tokens: seq<Token>, rest: Option<Rest>)

  predicate UnitOk(u: Unit) {
    u.Char? ==> u.b != 34 && u.b != 92
  }

  predicate UnitsOk(us: seq<Unit>) {
    forall i :: 0 <= i < |us| ==> UnitOk(us[i])
  }

  predicate TokenOk(t: Token) {
    match t
    case Mark(b) => b != 34
    case Literal(us) => UnitsOk(us)
  }

  predicate TextOk(t: Text) {
    (forall i :: 0 <= i < |t.tokens| ==> TokenOk(t.tokens[i])) && (t.rest.Some? ==> UnitsOk(t.rest.value.units))
  }

  // ---- The bytes of a text ----

  function UnitBytes(us: seq<Unit>): Bytes {
    if us == [] then []
    else
      var u := us[|us| - 1];
      UnitBytes(us[..|us| - 1]) + (if u.Char? then [u.b] else [92, u.b])
  }

  function TokenBytes(t: Token): Bytes {
    match t
    case Mark(b) => [b]
    case Literal(us) => [34] + UnitBytes(us) + [34]
  }

  function TokensBytes(ts: seq<Token>): Bytes {
    if ts == [] then [] else TokensBytes(ts[..|ts| - 1]) + TokenBytes(ts[|ts| - 1])
  }

  function RestBytes(r: Option<Rest>): Bytes {
    match r
    case None => []
    case Some(o) => [34] + UnitBytes(o.units) + (if o.cut then [92] else [])
  }

  function TextBytes(t: Text): Bytes {
    TokensBytes(t.tokens) + RestBytes(t.rest)
  }

  // ---- Levels ----

  function Marks(ts: seq<Token>): Bytes {
    if ts == [] then [] else Marks(ts[..|ts| - 1]) + MarkOf(ts[|ts| - 1])
  }

  function Step(b: Byte): int {
    if b == 91 || b == 123 then 1 else if b == 93 || b == 125 then -1 else 0
  }

  function Level(ms: Bytes): int {
    if ms == [] then 0 else Level(ms[..|ms| - 1]) + Step(ms[|ms| - 1])
  }

  /** The highest level of any prefix, the empty one included. */
  predicate IsPeak(ms: Bytes, peak: int) {
    (exists n :: 0 <= n <= |ms| && Level(ms[..n]) == peak) && forall n :: 0 <= n <= |ms| ==> Level(ms[..n]) <= peak
  }

  lemma PeakSnoc(ms: Bytes, b: Byte, peak: int)
    requires IsPeak(ms, peak)
    ensures IsPeak(ms + [b], Max(peak, Level(ms + [b]))) && Level(ms + [b]) == Level(ms) + Step(b)
  {
    var ns := ms + [b];
    assert ns[..|ms|] == ms && ns[..|ns|] == ns;
    forall n | 0 <= n <= |ns| ensures Level(ns[..n]) <= Max(peak, Level(ns)) {
      if n <= |ms| { assert ns[..n] == ms[..n]; }
    }
    var k :| 0 <= k <= |ms| && Level(ms[..k]) == peak;
    assert ns[..k] == ms[..k];
    assert Level(ns[..k]) == peak && Level(ns[..|ns|]) == Level(ns);
  }

  // ---- The scan follows the levels ----

  lemma {:induction false} ScanUnitBytes(s: Scan, us: seq<Unit>)
    requires UnitsOk(us) && s.quoted && !s.escaped
    ensures ScanAll(s, UnitBytes(us)) == s
    decreases |us|
  {
    if us != [] {
      var before, u := us[..|us| - 1], us[|us| - 1];
      ScanUnitBytes(s, before);
      if u.Char? {
        ScanConcat(s, UnitBytes(before), [u.b]);
        ScanOne(s, u.b);
      } else {
        ScanConcat(s, UnitBytes(before), [92, u.b]);
        assert [92, u.b] == [92] + [u.b];
        ScanConcat(s, [92], [u.b]);
        ScanOne(s, 92);
        ScanOne(s.(escaped := true), u.b);
      }
    }
  }

  lemma ScanLiteral(s: Scan, us: seq<Unit>)
    requires UnitsOk(us) && !s.quoted && !s.escaped
    ensures ScanAll(s, [34] + UnitBytes(us)) == s.(quoted := true)
    ensures ScanAll(s, [34] + UnitBytes(us) + [34]) == s
  {
    var q := s.(quoted := true);
    ScanConcat(s, [34], UnitBytes(us));
    ScanOne(s, 34);
    ScanUnitBytes(q, us);
    ScanConcat(s, [34] + UnitBytes(us), [34]);
    ScanOne(q, 34);
  }

  function MarkOf(t: Token): Bytes {
    if t.Mark? then [t.b] else []
  }

  lemma ScanToken(ms: Bytes, p: int, t: Token) returns (peak: int)
    requires IsPeak(ms, p) && TokenOk(t)
    ensures IsPeak(ms + MarkOf(t), peak)
    ensures ScanAll(At(Level(ms), p), TokenBytes(t)) == At(Level(ms + MarkOf(t)), peak)
  {
    match t
    case Mark(b) =>
      peak := Max(p, Level(ms + [b]));
      PeakSnoc(ms, b, p);
      LevelWithin(ms, p);
      ScanOne(At(Level(ms), p), b);
    case Literal(us) =>
      peak := p;
      assert ms + [] == ms;
      ScanLiteral(At(Level(ms), p), us);
  }

  lemma {:induction false} ScanTokens(ts: seq<Token>) returns (peak: int)
    requires forall i :: 0 <= i < |ts| ==> TokenOk(ts[i])
    ensures IsPeak(Marks(ts), peak) && ScanAll(Start, TokensBytes(ts)) == At(Level(Marks(ts)), peak)
    decreases |ts|
  {
    if ts == [] {
      peak := 0;
      assert Marks(ts)[..0] == [];
    } else {
      var before, t := ts[..|ts| - 1], ts[|ts| - 1];
      var p := ScanTokens(before);
      peak := ScanToken(Marks(before), p, t);
      ScanConcat(Start, TokensBytes(before), TokenBytes(t));
    }
  }

  lemma LevelWithin(ms: Bytes, peak: int)
    requires IsPeak(ms, peak)
    ensures Level(ms) <= peak
  {
    assert ms[..|ms|] == ms;
  }

  /** The depth of any text is the highest level of its bytes outside literals. */
  lemma DepthIsPeak(t: Text)
    requires TextOk(t)
    ensures IsPeak(Marks(t.tokens), Deepest(TextBytes(t)))
  {
    var peak := ScanTokens(t.tokens);
    ScanConcat(Start, TokensBytes(t.tokens), RestBytes(t.rest));
    var s := At(Level(Marks(t.tokens)), peak);
    if t.rest.Some? {
      var us := t.rest.value.units;
      ScanLiteral(s, us);
      if t.rest.value.cut {
        ScanConcat(s, [34] + UnitBytes(us), [92]);
        ScanOne(s.(quoted := true), 92);
      } else {
        assert RestBytes(t.rest) == [34] + UnitBytes(us);
      }
    }
  }

  // ---- Every byte string is a text ----

  function AddByte(t: Text, b: Byte): Text {
    match t.rest
    case None => if b == 34 then t.(rest := Some(Rest([], false))) else t.(tokens := t.tokens + [Mark(b)])
    case Some(r) =>
      if r.cut then t.(rest := Some(Rest(r.units + [Escape(b)], false)))
      else if b == 92 then t.(rest := Some(Rest(r.units, true)))
      else if b == 34 then Lexed(t.tokens + [Literal(r.units)], None)
      else t.(rest := Some(Rest(r.units + [Char(b)], false)))
  }

  lemma UnitSnoc(us: seq<Unit>, u: Unit)
    ensures UnitBytes(us + [u]) == UnitBytes(us) + if u.Char? then [u.b] else [92, u.b]
  {
  }

  lemma TokenSnoc(ts: seq<Token>, t: Token)
    ensures TokensBytes(ts + [t]) == TokensBytes(ts) + TokenBytes(t)
  {
  }

  lemma AddOutside(t: Text, b: Byte)
    requires TextOk(t) && t.rest.None?
    ensures TextOk(AddByte(t, b)) && TextBytes(AddByte(t, b)) == TextBytes(t) + [b]
  {
    if b != 34 { TokenSnoc(t.tokens, Mark(b)); }
  }

  lemma CloseLiteral(ts: seq<Token>, us: seq<Unit>)
    ensures TextBytes(Lexed(ts + [Literal(us)], None)) == TextBytes(Lexed(ts, Some(Rest(us, false)))) + [34]
  {
    TokenSnoc(ts, Literal(us));
  }

  lemma ExtendLiteral(ts: seq<Token>, us: seq<Unit>, b: Byte)
    ensures TextBytes(Lexed(ts, Some(Rest(us, true)))) == TextBytes(Lexed(ts, Some(Rest(us, false)))) + [92]
    ensures TextBytes(Lexed(ts, Some(Rest(us + [Char(b)], false))))
         == TextBytes(Lexed(ts, Some(Rest(us, false)))) + [b]
    ensures TextBytes(Lexed(ts, Some(Rest(us + [Escape(b)], false))))
         == TextBytes(Lexed(ts, Some(Rest(us, true)))) + [b]
  {
    var head, body := TokensBytes(ts), UnitBytes(us);
    UnitSnoc(us, Char(b));
    UnitSnoc(us, Escape(b));
    Extended(head, body, b);
  }

  lemma Extended(head: Bytes, body: Bytes, b: Byte)
    ensures head + ([34] + body + [92]) == head + ([34] + body + []) + [92]
    ensures head + ([34] + (body + [b]) + []) == head + ([34] + body + []) + [b]
    ensures head + ([34] + (body + [92, b]) + []) == head + ([34] + body + [92]) + [b]
  {
    assert [92] + [b] == [92, b];
  }

  lemma AddByteOk(t: Text, b: Byte)
    requires TextOk(t)
    ensures TextOk(AddByte(t, b))
  {
  }

  lemma AddByteAdds(t: Text, b: Byte)
    requires TextOk(t)
    ensures TextBytes(AddByte(t, b)) == TextBytes(t) + [b]
  {
    if t.rest.None? {
      AddOutside(t, b);
    } else {
      var ts, us := t.tokens, t.rest.value.units;
      assert t == Lexed(ts, Some(Rest(us, t.rest.value.cut)));
      if b == 34 && !t.rest.value.cut {
        CloseLiteral(ts, us);
      } else {
        ExtendLiteral(ts, us, b);
      }
    }
  }

  /** Every byte string is the bytes of a text. */
  lemma {:induction false} EveryStringIsText(bs: Bytes) returns (t: Text)
    ensures TextOk(t) && TextBytes(t) == bs
    decreases |bs|
  {
    if bs == [] {
      t := Lexed([], None);
    } else {
      var n := |bs| - 1;
      var before := EveryStringIsText(bs[..n]);
      t := AddByte(before, bs[n]);
      AddByteOk(before, bs[n]);
      AddByteAdds(before, bs[n]);
      assert bs == bs[..n] + [bs[n]];
    }
  }
}

/** The two lexical nesting scanners that guard the JSON parsers. */
module JsonDepth {
  import opened Bytes

  const QUOTE: Byte := 34
  const BACKSLASH: Byte := 92
  const COMMA: Byte := 44
  const COLON: Byte := 58
  const MaxNesting := 32

  predicate Opens(b: Byte) { b == 91 || b == 123 }
  predicate Closes(b: Byte) { b == 93 || b == 125 }

  /** Depth so far, largest depth so far, and where in a string the scan is. */
  datatype Scan = Scan(depth: int, deepest: int, quoted: bool, escaped: bool)

  function Max(a: int, b: int): int {
    if a >= b then a else b
  }

  function Next(s: Scan, b: Byte): Scan {
    if s.quoted then
      if s.escaped then s.(escaped := false)
      else if b == BACKSLASH then s.(escaped := true)
      else if b == QUOTE then s.(quoted := false)
      else s
    else if b == QUOTE then s.(quoted := true)
    else if Opens(b) then s.(depth := s.depth + 1, deepest := Max(s.deepest, s.depth + 1))
    else if Closes(b) then s.(depth := s.depth - 1)
    else s
  }

  function ScanAll(s: Scan, bs: Bytes): Scan
    decreases |bs|
  {
    if bs == [] then s else ScanAll(Next(s, bs[0]), bs[1..])
  }

  const Start := Scan(0, 0, false, false)

  /** The nesting a byte string shows, with no limit. */
  function Deepest(bs: Bytes): int {
    ScanAll(Start, bs).deepest
  }

  lemma {:induction false} ScanConcat(s: Scan, a: Bytes, b: Bytes)
    ensures ScanAll(s, a + b) == ScanAll(ScanAll(s, a), b)
    decreases |a|
  {
    if a == [] {
      assert a + b == b;
    } else {
      assert (a + b)[1..] == a[1..] + b;
      ScanConcat(Next(s, a[0]), a[1..], b);
    }
  }

  lemma {:induction false} DeepestGrows(s: Scan, bs: Bytes)
    ensures ScanAll(s, bs).deepest >= s.deepest
    decreases |bs|
  {
    if bs != [] { DeepestGrows(Next(s, bs[0]), bs[1..]); }
  }

  lemma PrefixScan(bs: Bytes, n: nat)
    requires n <= |bs|
    ensures ScanAll(Start, bs) == ScanAll(ScanAll(Start, bs[..n]), bs[n..])
    ensures n < |bs| ==> ScanAll(Start, bs[..n + 1]) == Next(ScanAll(Start, bs[..n]), bs[n])
  {
    assert bs == bs[..n] + bs[n..];
    ScanConcat(Start, bs[..n], bs[n..]);
    if n < |bs| {
      assert bs[..n + 1] == bs[..n] + [bs[n]];
      ScanConcat(Start, bs[..n], [bs[n]]);
      assert ScanAll(ScanAll(Start, bs[..n]), [bs[n]]) == ScanAll(Next(ScanAll(Start, bs[..n]), bs[n]), [bs[n]][1..]);
    }
  }

  /** The qualification scanner: it stops one past the limit. */
  method LexicalDepth(raw: Bytes) returns (maximum: int)
    ensures maximum == if Deepest(raw) <= 32 then Deepest(raw) else 33
  {
    var depth, inString, escaped := 0, false, false;
    maximum := 0;
    for n := 0 to |raw|
      invariant Scan(depth, maximum, inString, escaped) == ScanAll(Start, raw[..n])
      invariant depth <= maximum <= MaxNesting
    {
      PrefixScan(raw, n);
      if inString {
        if escaped {
          escaped := false;
        } else if raw[n] == BACKSLASH {
          escaped := true;
        } else if raw[n] == QUOTE {
          inString := false;
        }
      } else if raw[n] == QUOTE {
        inString := true;
      } else if Opens(raw[n]) {
        depth := depth + 1;
        maximum := Max(maximum, depth);
        if maximum > MaxNesting {
          PrefixScan(raw, n + 1);
          DeepestGrows(ScanAll(Start, raw[..n + 1]), raw[n + 1..]);
          return;
        }
      } else if Closes(raw[n]) {
        depth := depth - 1;
      }
    }
    assert raw[..|raw|] == raw;
  }

  /** The benchmark-artifact scanner: it only says whether the limit holds. */
  method DecodeScan(raw: Bytes) returns (accepted: bool)
    ensures accepted <==> Deepest(raw) <= 32
  {
    var depth, quoted, escaped := 0, false, false;
    ghost var deepest := 0;
    for n := 0 to |raw|
      invariant Scan(depth, deepest, quoted, escaped) == ScanAll(Start, raw[..n])
      invariant deepest <= MaxNesting
    {
      PrefixScan(raw, n);
      if quoted {
        if escaped {
          escaped := false;
        } else if raw[n] == BACKSLASH {
          escaped := true;
        } else if raw[n] == QUOTE {
          quoted := false;
        }
      } else if raw[n] == QUOTE {
        quoted := true;
      } else if Opens(raw[n]) {
        depth := depth + 1;
        deepest := Max(deepest, depth);
        if depth > MaxNesting {
          PrefixScan(raw, n + 1);
          DeepestGrows(ScanAll(Start, raw[..n + 1]), raw[n + 1..]);
          return false;
        }
      } else if Closes(raw[n]) {
        depth := depth - 1;
      }
    }
    assert raw[..|raw|] == raw;
    accepted := true;
  }

  // ---- JSON documents ----

  /** Numbers and the three literals are atoms; strings are UTF-16 code units. */
  datatype Json = Atom(text: Bytes) | Text(units: seq<nat>) | Array(items: seq<Json>) | Object(members: seq<Member>)

  datatype Member = Member(key: seq<nat>, value: Json)

  /** Bytes that mean nothing to the scanner outside a string. */
  predicate Plain(bs: Bytes) {
    forall i :: 0 <= i < |bs| ==> bs[i] != QUOTE && !Opens(bs[i]) && !Closes(bs[i])
  }

  predicate Units(us: seq<nat>) {
    forall i :: 0 <= i < |us| ==> us[i] < 65536
  }

  predicate WellFormed(v: Json)
    decreases v
  {
    match v
    case Atom(text) => Plain(text)
    case Text(units) => Units(units)
    case Array(items) => forall i :: 0 <= i < |items| ==> WellFormed(items[i])
    case Object(members) => forall i :: 0 <= i < |members| ==> Units(members[i].key) && WellFormed(members[i].value)
  }

  function Hex(d: nat): Byte
    requires d < 16
  {
    if d < 10 then 48 + d else 87 + d
  }

  /** The escapes of `json.dumps` with ASCII output. */
  function PrintUnit(u: nat): Bytes
    requires u < 65536
  {
    if u == 34 || u == 92 then [BACKSLASH, u]
    else if u == 8 then [BACKSLASH, 98]
    else if u == 9 then [BACKSLASH, 116]
    else if u == 10 then [BACKSLASH, 110]
    else if u == 12 then [BACKSLASH, 102]
    else if u == 13 then [BACKSLASH, 114]
    else if u < 32 || u > 126 then
      [BACKSLASH, 117, Hex(u / 4096), Hex(u / 256 % 16), Hex(u / 16 % 16), Hex(u % 16)]
    else [u]
  }

  function PrintUnits(us: seq<nat>): Bytes
    requires Units(us)
  {
    if us == [] then [] else PrintUnit(us[0]) + PrintUnits(us[1..])
  }

  function PrintText(us: seq<nat>): Bytes
    requires Units(us)
  {
    [QUOTE] + PrintUnits(us) + [QUOTE]
  }

  function Print(v: Json): Bytes
    requires WellFormed(v)
    decreases v, 1
  {
    match v
    case Atom(text) => text
    case Text(units) => PrintText(units)
    case Array(items) => [91] + PrintItems(items) + [93]
    case Object(members) => [123] + PrintMembers(members) + [125]
  }

  function PrintItems(items: seq<Json>): Bytes
    requires forall i :: 0 <= i < |items| ==> WellFormed(items[i])
    decreases items, 0
  {
    if items == [] then []
    else Print(items[0]) + (if |items| == 1 then [] else [COMMA]) + PrintItems(items[1..])
  }

  function PrintMembers(members: seq<Member>): Bytes
    requires forall i :: 0 <= i < |members| ==> Units(members[i].key) && WellFormed(members[i].value)
    decreases members, 0
  {
    if members == [] then []
    else (PrintText(members[0].key) + [COLON] + Print(members[0].value))
         + (if |members| == 1 then [] else [COMMA]) + PrintMembers(members[1..])
  }

  /** How deep arrays and objects are nested in a value. */
  function Nesting(v: Json): nat
    decreases v, 1
  {
    match v
    case Atom(_) => 0
    case Text(_) => 0
    case Array(items) => 1 + NestingItems(items)
    case Object(members) => 1 + NestingMembers(members)
  }

  function NestingItems(items: seq<Json>): nat
    decreases items, 0
  {
    if items == [] then 0 else Max(Nesting(items[0]), NestingItems(items[1..]))
  }

  function NestingMembers(members: seq<Member>): nat
    decreases members, 0
  {
    if members == [] then 0 else Max(Nesting(members[0].value), NestingMembers(members[1..]))
  }

  /** The scan outside a string at some depth. */
  function At(depth: int, deepest: int): Scan {
    Scan(depth, deepest, false, false)
  }

  lemma {:induction false} ScanPlain(s: Scan, bs: Bytes)
    requires Plain(bs) && !s.quoted
    ensures ScanAll(s, bs) == s
  {
    if bs != [] { ScanPlain(s, bs[1..]); }
  }

  lemma ScanOne(s: Scan, b: Byte)
    ensures ScanAll(s, [b]) == Next(s, b)
  {
  }

  lemma {:induction false} ScanQuotedPlain(s: Scan, bs: Bytes)
    requires s.quoted && !s.escaped
    requires forall i :: 0 <= i < |bs| ==> bs[i] != QUOTE && bs[i] != BACKSLASH
    ensures ScanAll(s, bs) == s
  {
    if bs != [] { ScanQuotedPlain(s, bs[1..]); }
  }

  /** A printed character leaves the scan inside the string. */
  lemma ScanUnit(s: Scan, u: nat)
    requires u < 65536 && s.quoted && !s.escaped
    ensures ScanAll(s, PrintUnit(u)) == s
  {
    var bs := PrintUnit(u);
    if bs[0] == BACKSLASH {
      assert bs == [BACKSLASH] + ([bs[1]] + bs[2..]);
      ScanConcat(s, [BACKSLASH], [bs[1]] + bs[2..]);
      ScanOne(s, BACKSLASH);
      var e := s.(escaped := true);
      ScanConcat(e, [bs[1]], bs[2..]);
      ScanOne(e, bs[1]);
      ScanQuotedPlain(s, bs[2..]);
    } else {
      ScanOne(s, bs[0]);
    }
  }

  lemma {:induction false} ScanUnits(s: Scan, us: seq<nat>)
    requires Units(us) && s.quoted && !s.escaped
    ensures ScanAll(s, PrintUnits(us)) == s
  {
    if us != [] {
      ScanConcat(s, PrintUnit(us[0]), PrintUnits(us[1..]));
      ScanUnit(s, us[0]);
      ScanUnits(s, us[1..]);
    }
  }

  /** Quotes and brackets inside a printed string do not count. */
  lemma ScanText(s: Scan, us: seq<nat>)
    requires Units(us) && !s.quoted && !s.escaped
    ensures ScanAll(s, PrintText(us)) == s
  {
    var q := s.(quoted := true);
    ScanConcat(s, [QUOTE] + PrintUnits(us), [QUOTE]);
    ScanConcat(s, [QUOTE], PrintUnits(us));
    ScanOne(s, QUOTE);
    ScanUnits(q, us);
    ScanOne(q, QUOTE);
  }

  /** Scanning a printed value ends where it began and has seen its nesting. */
  lemma {:induction false} ScanValue(d: int, m: int, v: Json)
    requires WellFormed(v) && d <= m
    ensures ScanAll(At(d, m), Print(v)) == At(d, Max(m, d + Nesting(v)))
    decreases v, 1
  {
    match v
    case Atom(text) =>
      ScanPlain(At(d, m), text);
    case Text(units) =>
      ScanText(At(d, m), units);
    case Array(items) =>
      ScanItems(d + 1, Max(m, d + 1), items);
      ScanBracketed(d, m, 91, PrintItems(items), 93, NestingItems(items));
    case Object(members) =>
      ScanMembers(d + 1, Max(m, d + 1), members);
      ScanBracketed(d, m, 123, PrintMembers(members), 125, NestingMembers(members));
  }

  lemma ScanBracketed(d: int, m: int, open: Byte, body: Bytes, close: Byte, n: nat)
    requires Opens(open) && Closes(close) && d <= m
    requires ScanAll(At(d + 1, Max(m, d + 1)), body) == At(d + 1, Max(Max(m, d + 1), d + 1 + n))
    ensures ScanAll(At(d, m), [open] + body + [close]) == At(d, Max(m, d + 1 + n))
  {
    ScanConcat(At(d, m), [open] + body, [close]);
    ScanConcat(At(d, m), [open], body);
    ScanOne(At(d, m), open);
    ScanOne(At(d + 1, Max(Max(m, d + 1), d + 1 + n)), close);
  }

  /** One element, its separator, and the elements after it. */
  lemma ScanThen(d: int, m: int, first: Bytes, a: nat, sep: Bytes, rest: Bytes, b: nat)
    requires Plain(sep)
    requires ScanAll(At(d, m), first) == At(d, Max(m, d + a))
    requires ScanAll(At(d, Max(m, d + a)), rest) == At(d, Max(Max(m, d + a), d + b))
    ensures ScanAll(At(d, m), first + sep + rest) == At(d, Max(m, d + Max(a, b)))
  {
    ScanConcat(At(d, m), first + sep, rest);
    ScanConcat(At(d, m), first, sep);
    ScanPlain(At(d, Max(m, d + a)), sep);
  }

  lemma {:induction false} ScanItems(d: int, m: int, items: seq<Json>)
    requires d <= m && forall i :: 0 <= i < |items| ==> WellFormed(items[i])
    ensures ScanAll(At(d, m), PrintItems(items)) == At(d, Max(m, d + NestingItems(items)))
    decreases items, 0
  {
    if items != [] {
      var n := Nesting(items[0]);
      ScanValue(d, m, items[0]);
      ScanItems(d, Max(m, d + n), items[1..]);
      ScanThen(d, m, Print(items[0]), n, if |items| == 1 then [] else [COMMA],
               PrintItems(items[1..]), NestingItems(items[1..]));
    }
  }

  lemma ScanMember(d: int, m: int, key: seq<nat>, value: Bytes, n: nat)
    requires Units(key) && ScanAll(At(d, m), value) == At(d, Max(m, d + n))
    ensures ScanAll(At(d, m), PrintText(key) + [COLON] + value) == At(d, Max(m, d + n))
  {
    ScanConcat(At(d, m), PrintText(key) + [COLON], value);
    ScanConcat(At(d, m), PrintText(key), [COLON]);
    ScanText(At(d, m), key);
    ScanPlain(At(d, m), [COLON]);
  }

  lemma {:induction false} ScanMembers(d: int, m: int, members: seq<Member>)
    requires d <= m && forall i :: 0 <= i < |members| ==> Units(members[i].key) && WellFormed(members[i].value)
    ensures ScanAll(At(d, m), PrintMembers(members)) == At(d, Max(m, d + NestingMembers(members)))
    decreases members, 0
  {
    if members != [] {
      var n := Nesting(members[0].value);
      ScanValue(d, m, members[0].value);
      ScanMember(d, m, members[0].key, Print(members[0].value), n);
      ScanMembers(d, Max(m, d + n), members[1..]);
      ScanThen(d, m, PrintText(members[0].key) + [COLON] + Print(members[0].value), n,
               if |members| == 1 then [] else [COMMA], PrintMembers(members[1..]), NestingMembers(members[1..]));
    }
  }

  /** On a printed document the scan ends at depth zero outside any string, and
      the largest depth it saw is the nesting of the value. */
  lemma DocumentDepth(v: Json)
    requires WellFormed(v)
    ensures ScanAll(Start, Print(v)) == At(0, Nesting(v)) && Deepest(Print(v)) == Nesting(v)
  {
    ScanValue(0, 0, v);
  }
}

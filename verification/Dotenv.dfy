/** The `secrets export` printer and a one-pass reader that inverts it. */
module Dotenv {
  import opened Prelude
  import Utf8
  import Names
  import Order

  type SecretMap = map<Bytes, Bytes>

  const NEWLINE: Byte := 10
  const RETURN: Byte := 13
  const QUOTE: Byte := 34
  const BACKSLASH: Byte := 92
  const EQUALS: Byte := 61
  const LETTER_N: Byte := 110
  const LETTER_R: Byte := 114

  // ---- printer ----

  predicate SafeByte(b: Byte) {
    Names.Alphanumeric(b) || b in Ascii("_-./:@")
  }

  predicate Safe(value: Bytes) {
    value != [] && forall i :: 0 <= i < |value| ==> SafeByte(value[i])
  }

  function EscapeByte(b: Byte): (r: Bytes)
    ensures 1 <= |r| <= 2
  {
    if b == BACKSLASH then [BACKSLASH, BACKSLASH]
    else if b == QUOTE then [BACKSLASH, QUOTE]
    else if b == NEWLINE then [BACKSLASH, LETTER_N]
    else if b == RETURN then [BACKSLASH, LETTER_R]
    else [b]
  }

  /** One character, escaped. Multi-octet characters never need an escape. */
  function EscapeChar(c: Bytes): Bytes {
    if |c| == 1 then EscapeByte(c[0]) else c
  }

  /** Octet-by-octet escaping; agrees with the character loop on well-formed text. */
  function Escape(s: Bytes): Bytes {
    if s == [] then [] else EscapeByte(s[0]) + Escape(s[1..])
  }

  function Value(value: Bytes): Bytes {
    if Safe(value) then value else [QUOTE] + Escape(value) + [QUOTE]
  }

  function Line(key: Bytes, value: Bytes): Bytes {
    key + [EQUALS] + Value(value)
  }

  /** A line and its newline. */
  function Entry(key: Bytes, value: Bytes): Bytes {
    Line(key, value) + [NEWLINE]
  }

  function Export(keys: seq<Bytes>, secrets: SecretMap): Bytes
    requires forall k :: k in keys ==> k in secrets
  {
    if keys == [] then [] else Entry(keys[0], secrets[keys[0]]) + Export(keys[1..], secrets)
  }

  /** The dotenv text of a secret map: its keys in byte order. */
  function Dotenv(secrets: SecretMap): Bytes {
    Export(Order.Sorted(secrets.Keys), secrets)
  }

  /** A value is printed bare exactly when it is not empty and has only letters, digits and `_-./:@`; else in quotes. */
  lemma BareExactly(value: Bytes)
    ensures var bare := value != [] && forall i :: 0 <= i < |value| ==>
              Names.Alphanumeric(value[i]) || value[i] in [95, 45, 46, 47, 58, 64];
            if bare then Value(value) == value
            else |Value(value)| >= 2 && Value(value)[0] == QUOTE && Value(value)[|Value(value)| - 1] == QUOTE
  {
    assert Ascii("_-./:@") == [95, 45, 46, 47, 58, 64];
  }

  lemma Assoc(a: Bytes, b: Bytes, c: Bytes)
    ensures (a + b) + c == a + (b + c)
  {
  }

  lemma {:induction false} EscapeConcat(a: Bytes, b: Bytes)
    ensures Escape(a + b) == Escape(a) + Escape(b)
  {
    if a == [] {
      assert a + b == b;
    } else {
      EscapeConcat(a[1..], b);
      assert (a + b)[1..] == a[1..] + b;
      Assoc(EscapeByte(a[0]), Escape(a[1..]), Escape(b));
    }
  }

  lemma {:induction false} EscapeHigh(c: Bytes)
    requires forall i :: 0 <= i < |c| ==> c[i] >= 0x80
    ensures Escape(c) == c
  {
    if c != [] {
      EscapeHigh(c[1..]);
      assert EscapeByte(c[0]) == [c[0]];
      assert [c[0]] + c[1..] == c;
    }
  }

  lemma EscapeOneChar(s: Bytes)
    requires Utf8.CharLen(s) > 0
    ensures Escape(s[..Utf8.CharLen(s)]) == EscapeChar(s[..Utf8.CharLen(s)])
  {
    var c := s[..Utf8.CharLen(s)];
    if |c| == 1 {
      assert c[1..] == [];
      assert Escape(c[1..]) == [];
    } else {
      EscapeHigh(c);
    }
  }

  /** Escaping one more character extends the escaped text by that character's escape. */
  lemma EscapeStep(before: Bytes, rest: Bytes)
    requires Utf8.CharLen(rest) > 0
    ensures var c := rest[..Utf8.CharLen(rest)];
            Escape(before + c) == Escape(before) + EscapeChar(c)
  {
    EscapeOneChar(rest);
    EscapeConcat(before, rest[..Utf8.CharLen(rest)]);
  }

  lemma Split3(a: Bytes, b: Bytes, n: nat)
    requires n <= |b|
    ensures (a + b[..n]) + b[n..] == a + b
  {
  }

  /** The escaping loop of `dotenv_value`, character by character. */
  method EscapeText(value: Utf8.Text) returns (s: Bytes)
    ensures s == Escape(value)
  {
    s := [];
    ghost var done: Bytes := [];
    var rest: Bytes := value;
    while rest != []
      invariant Utf8.Valid(rest) && done + rest == value
      invariant s == Escape(done)
      decreases |rest|
    {
      var n := Utf8.CharLen(rest);
      EscapeStep(done, rest);
      Split3(done, rest, n);
      s := s + EscapeChar(rest[..n]);
      done := done + rest[..n];
      rest := rest[n..];
    }
    assert done + [] == done;
  }

  /** `dotenv_value`: bare when safe, else quoted with escapes. */
  method DotenvValue(value: Utf8.Text) returns (r: Bytes)
    ensures r == Value(value)
  {
    if Safe(value) {
      return value;
    }
    var s := EscapeText(value);
    return [QUOTE] + s + [QUOTE];
  }

  lemma {:induction false} ExportSnoc(keys: seq<Bytes>, k: Bytes, secrets: SecretMap)
    requires (forall x :: x in keys ==> x in secrets) && k in secrets
    ensures forall x :: x in keys + [k] ==> x in secrets
    ensures Export(keys + [k], secrets) == Export(keys, secrets) + Entry(k, secrets[k])
  {
    if keys == [] {
      assert keys + [k] == [k] && [k][1..] == [];
      assert Export([k][1..], secrets) == [];
    } else {
      assert (keys + [k])[1..] == keys[1..] + [k];
      ExportSnoc(keys[1..], k, secrets);
      Assoc(Entry(keys[0], secrets[keys[0]]), Export(keys[1..], secrets), Entry(k, secrets[k]));
    }
  }

  /** One line of `export`: four pushes to the text. */
  method PushLine(out: Bytes, key: Bytes, value: Utf8.Text) returns (r: Bytes)
    ensures r == out + Entry(key, value)
  {
    var v := DotenvValue(value);
    r := out + key;
    r := r + [EQUALS];
    r := r + v;
    r := r + [NEWLINE];
  }

  lemma ExportStep(keys: seq<Bytes>, i: nat, secrets: SecretMap)
    requires forall k :: k in keys ==> k in secrets
    requires i < |keys|
    ensures keys[i] in keys
    ensures Export(keys[..i + 1], secrets) == Export(keys[..i], secrets) + Entry(keys[i], secrets[keys[i]])
  {
    assert keys[..i + 1] == keys[..i] + [keys[i]];
    ExportSnoc(keys[..i], keys[i], secrets);
  }

  /** The loop of `export`. */
  method ExportKeys(keys: seq<Bytes>, secrets: map<Bytes, Utf8.Text>) returns (out: Bytes)
    requires forall k :: k in keys ==> k in secrets
    ensures out == Export(keys, secrets)
  {
    out := [];
    var i := 0;
    while i < |keys|
      invariant 0 <= i <= |keys|
      invariant out == Export(keys[..i], secrets)
    {
      ExportStep(keys, i, secrets);
      out := PushLine(out, keys[i], secrets[keys[i]]);
      i := i + 1;
    }
    assert keys[..i] == keys;
  }

  /** `export`: the map in key order. */
  method ExportText(secrets: map<Bytes, Utf8.Text>) returns (out: Bytes)
    ensures out == Dotenv(secrets)
  {
    out := ExportKeys(Order.Sorted(secrets.Keys), secrets);
  }

  // ---- reader ----

  /** Split at the first occurrence of `b`, dropping it. */
  function SplitAt(s: Bytes, b: Byte): (r: Option<(Bytes, Bytes)>)
    ensures r.Some? ==> |r.value.1| < |s|
  {
    if s == [] then None
    else if s[0] == b then Some(([], s[1..]))
    else match SplitAt(s[1..], b)
         case None => None
         case Some(p) => Some(([s[0]] + p.0, p.1))
  }

  /** Read a quoted value up to its closing quote, undoing the escapes. */
  function ReadQuoted(s: Bytes): (r: Option<(Bytes, Bytes)>)
    ensures r.Some? ==> |r.value.1| < |s|
  {
    if s == [] then None
    else if s[0] == QUOTE then Some(([], s[1..]))
    else if s[0] != BACKSLASH then
      match ReadQuoted(s[1..])
      case None => None
      case Some(p) => Some(([s[0]] + p.0, p.1))
    else if |s| < 2 then None
    else
      var b: Byte := if s[1] == LETTER_N then NEWLINE else if s[1] == LETTER_R then RETURN else s[1];
      match ReadQuoted(s[2..])
      case None => None
      case Some(p) => Some(([b] + p.0, p.1))
  }

  /** One pass over the text: key, `=`, bare or quoted value, newline. */
  function Read(s: Bytes): Option<SecretMap>
    decreases |s|
  {
    if s == [] then Some(map[]) else
      match SplitAt(s, EQUALS)
      case None => None
      case Some((key, rest)) =>
        match ReadValue(rest)
        case None => None
        case Some((value, more)) =>
          match Read(more)
          case None => None
          case Some(m) => Some(m[key := value])
  }

  lemma {:induction false} SplitAtJoin(a: Bytes, b: Byte, rest: Bytes)
    requires b !in a
    ensures SplitAt(a + [b] + rest, b) == Some((a, rest))
  {
    var s := a + [b] + rest;
    if a == [] {
      assert s[1..] == rest;
    } else {
      assert s[1..] == a[1..] + [b] + rest;
      SplitAtJoin(a[1..], b, rest);
      assert [a[0]] + a[1..] == a;
    }
  }

  lemma {:induction false} ReadQuotedEscape(v: Bytes, rest: Bytes)
    ensures ReadQuoted(Escape(v) + [QUOTE] + rest) == Some((v, rest))
  {
    var s := Escape(v) + [QUOTE] + rest;
    if v == [] {
      assert s[1..] == rest;
    } else {
      var e, more := EscapeByte(v[0]), Escape(v[1..]) + [QUOTE] + rest;
      assert s == e + more;
      ReadQuotedEscape(v[1..], rest);
      assert [v[0]] + v[1..] == v;
      ReadEscapedByte(v[0], more);
    }
  }

  lemma ReadPlainByte(s: Bytes)
    requires s != [] && s[0] != QUOTE && s[0] != BACKSLASH && ReadQuoted(s[1..]).Some?
    ensures ReadQuoted(s) == Some(([s[0]] + ReadQuoted(s[1..]).value.0, ReadQuoted(s[1..]).value.1))
  {
  }

  lemma ReadEscape(s: Bytes)
    requires |s| >= 2 && s[0] == BACKSLASH && ReadQuoted(s[2..]).Some?
    ensures var b: Byte := if s[1] == LETTER_N then NEWLINE else if s[1] == LETTER_R then RETURN else s[1];
            ReadQuoted(s) == Some(([b] + ReadQuoted(s[2..]).value.0, ReadQuoted(s[2..]).value.1))
  {
  }

  lemma ReadEscapedByte(b: Byte, more: Bytes)
    requires ReadQuoted(more).Some?
    ensures ReadQuoted(EscapeByte(b) + more) == Some(([b] + ReadQuoted(more).value.0, ReadQuoted(more).value.1))
  {
    var e := EscapeByte(b);
    var s := e + more;
    assert s[0] == e[0];
    if |e| == 2 {
      assert s[1] == e[1] && s[2..] == more;
      ReadEscape(s);
    } else {
      assert s[1..] == more;
      ReadPlainByte(s);
    }
  }

  /** What the reader makes of a value and the text after it. */
  function ReadValue(rest: Bytes): (r: Option<(Bytes, Bytes)>)
    ensures r.Some? ==> |r.value.1| < |rest|
  {
    if rest != [] && rest[0] == QUOTE then
      match ReadQuoted(rest[1..])
      case None => None
      case Some((v, after)) => if after != [] && after[0] == NEWLINE then Some((v, after[1..])) else None
    else SplitAt(rest, NEWLINE)
  }

  lemma ReadBareValue(value: Bytes, rest: Bytes)
    requires Safe(value)
    ensures ReadValue(value + [NEWLINE] + rest) == Some((value, rest))
  {
    assert (value + [NEWLINE] + rest)[0] == value[0] && SafeByte(value[0]);
    assert forall i :: 0 <= i < |value| ==> SafeByte(value[i]);
    SplitAtJoin(value, NEWLINE, rest);
  }

  lemma ReadQuotedValue(value: Bytes, rest: Bytes)
    ensures ReadValue([QUOTE] + Escape(value) + [QUOTE] + [NEWLINE] + rest) == Some((value, rest))
  {
    var tail := [QUOTE] + Escape(value) + [QUOTE] + [NEWLINE] + rest;
    var after := [NEWLINE] + rest;
    assert tail[0] == QUOTE;
    assert tail[1..] == Escape(value) + [QUOTE] + after;
    ReadQuotedEscape(value, after);
    assert after[0] == NEWLINE && after[1..] == rest;
  }

  lemma ReadPrintedValue(value: Bytes, rest: Bytes)
    ensures ReadValue(Value(value) + [NEWLINE] + rest) == Some((value, rest))
  {
    if Safe(value) {
      ReadBareValue(value, rest);
    } else {
      ReadQuotedValue(value, rest);
    }
  }

  lemma ReadLine(key: Bytes, value: Bytes, rest: Bytes)
    requires Names.ValidKey(key)
    ensures Read(Entry(key, value) + rest) ==
            match Read(rest) case None => None case Some(m) => Some(m[key := value])
  {
    var tail := Value(value) + [NEWLINE] + rest;
    assert Entry(key, value) + rest == key + [EQUALS] + tail;
    SplitAtJoin(key, EQUALS, tail);
    ReadPrintedValue(value, rest);
  }

  /** The sub-map a list of keys selects. */
  function Select(keys: seq<Bytes>, secrets: SecretMap): SecretMap
    requires forall k :: k in keys ==> k in secrets
  {
    map k | k in keys :: secrets[k]
  }

  lemma {:induction false} ReadExport(keys: seq<Bytes>, secrets: SecretMap)
    requires forall k :: k in keys ==> k in secrets && Names.ValidKey(k)
    ensures Read(Export(keys, secrets)) == Some(Select(keys, secrets))
  {
    if keys == [] {
      assert Select(keys, secrets) == map[];
    } else {
      ReadExport(keys[1..], secrets);
      ReadLine(keys[0], secrets[keys[0]], Export(keys[1..], secrets));
      assert forall x :: x in keys <==> x == keys[0] || x in keys[1..];
      assert Select(keys[1..], secrets)[keys[0] := secrets[keys[0]]] == Select(keys, secrets);
    }
  }

  ghost predicate ValidKeys(secrets: SecretMap) {
    forall k :: k in secrets ==> Names.ValidKey(k)
  }

  /** Reading what was printed recovers the map, whatever the values. */
  lemma ExportRoundTrip(secrets: SecretMap)
    requires ValidKeys(secrets)
    ensures Read(Dotenv(secrets)) == Some(secrets)
  {
    var keys := Order.Sorted(secrets.Keys);
    ReadExport(keys, secrets);
    assert Select(keys, secrets) == secrets;
  }

  lemma ExportInjective(a: SecretMap, b: SecretMap)
    requires ValidKeys(a) && ValidKeys(b) && Dotenv(a) == Dotenv(b)
    ensures a == b
  {
    ExportRoundTrip(a);
    ExportRoundTrip(b);
  }

  // ---- lines ----

  /** The text between newlines; the text must end with one. */
  function Lines(s: Bytes): Option<seq<Bytes>>
    decreases |s|
  {
    if s == [] then Some([]) else
      match SplitAt(s, NEWLINE)
      case None => None
      case Some((line, rest)) =>
        match Lines(rest)
        case None => None
        case Some(more) => Some([line] + more)
  }

  lemma {:induction false} EscapeHasNoBreaks(v: Bytes)
    ensures NEWLINE !in Escape(v) && RETURN !in Escape(v)
  {
    if v != [] {
      EscapeHasNoBreaks(v[1..]);
    }
  }

  lemma LineHasNoBreaks(key: Bytes, value: Bytes)
    requires Names.ValidKey(key)
    ensures NEWLINE !in Line(key, value) && RETURN !in Line(key, value)
  {
    EscapeHasNoBreaks(value);
  }

  lemma LinesStep(line: Bytes, rest: Bytes)
    requires NEWLINE !in line && Lines(rest).Some?
    ensures Lines((line + [NEWLINE]) + rest) == Some([line] + Lines(rest).value)
  {
    SplitAtJoin(line, NEWLINE, rest);
  }

  function LinesOf(keys: seq<Bytes>, secrets: SecretMap): (r: seq<Bytes>)
    requires forall k :: k in keys ==> k in secrets
    ensures |r| == |keys|
    ensures forall i :: 0 <= i < |keys| ==> r[i] == Line(keys[i], secrets[keys[i]])
  {
    seq(|keys|, i requires 0 <= i < |keys| => Line(keys[i], secrets[keys[i]]))
  }

  lemma LinesEntry(key: Bytes, value: Bytes, rest: Bytes)
    requires Names.ValidKey(key) && Lines(rest).Some?
    ensures Lines(Entry(key, value) + rest) == Some([Line(key, value)] + Lines(rest).value)
  {
    LineHasNoBreaks(key, value);
    LinesStep(Line(key, value), rest);
  }

  lemma LinesOfHead(keys: seq<Bytes>, secrets: SecretMap)
    requires keys != [] && forall k :: k in keys ==> k in secrets
    ensures LinesOf(keys, secrets) == [Line(keys[0], secrets[keys[0]])] + LinesOf(keys[1..], secrets)
  {
  }

  lemma {:induction false} ExportLines(keys: seq<Bytes>, secrets: SecretMap)
    requires forall k :: k in keys ==> k in secrets && Names.ValidKey(k)
    ensures Lines(Export(keys, secrets)) == Some(LinesOf(keys, secrets))
  {
    if keys == [] {
      assert LinesOf(keys, secrets) == [];
    } else {
      ExportLines(keys[1..], secrets);
      LinesEntry(keys[0], secrets[keys[0]], Export(keys[1..], secrets));
      LinesOfHead(keys, secrets);
    }
  }

  /** One line per key, in key order, each opening with its key. */
  lemma OneLinePerKey(secrets: SecretMap)
    requires ValidKeys(secrets)
    ensures var keys := Order.Sorted(secrets.Keys);
            var lines := Lines(Dotenv(secrets));
            && lines.Some? && |lines.value| == |secrets|
            && forall i :: 0 <= i < |keys| ==> keys[i] + [EQUALS] <= lines.value[i]
  {
    ExportLines(Order.Sorted(secrets.Keys), secrets);
  }
}

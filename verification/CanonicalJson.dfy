/** Canonical body encoding: `writeCanonical`, and a reader for sections 4 to 7 of RFC 8259
    that gets every value back. */
module CanonicalJson {
  import Lex
  import InsertionSort
  import opened Sequences

  /** A decoded body; a number keeps its literal. */
  datatype Json =
    | JNull | JBool(b: bool) | JNumber(literal: string) | JString(s: string)
    | JArray(items: seq<Json>) | JObject(members: map<string, Json>)

  // ------------------------------------------------------------------ writing

  const HEX: string := "0123456789abcdef"

  /** How the JSON encoder, with HTML escaping off, writes one character. */
  function EscapeChar(c: char): (r: string)
    ensures r != []
  {
    if c == '\"' then "\\\""
    else if c == '\\' then "\\\\"
    else if c == '\U{08}' then "\\b"
    else if c == '\U{0c}' then "\\f"
    else if c == '\n' then "\\n"
    else if c == '\r' then "\\r"
    else if c == '\t' then "\\t"
    else if c < ' ' then "\\u00" + [HEX[c as int / 16], HEX[c as int % 16]]
    else if c == '\U{2028}' then "\\u2028"
    else if c == '\U{2029}' then "\\u2029"
    else [c]
  }

  /** The text of each piece, followed by `rest`. */
  function CharsTo(s: string, rest: string): string {
    if s == [] then rest else EscapeChar(s[0]) + CharsTo(s[1..], rest)
  }

  function StringTo(s: string, rest: string): string {
    "\"" + CharsTo(s, "\"" + rest)
  }

  ghost predicate IsLeast(k: string, ks: set<string>) {
    k in ks && forall x :: x in ks ==> !Lex.Less(x, k)
  }

  lemma {:induction false} LeastExists(ks: set<string>)
    requires ks != {}
    ensures exists k :: IsLeast(k, ks)
    decreases |ks|
  {
    var x :| x in ks;
    if ks == {x} {
      Lex.Irreflexive(x);
      assert IsLeast(x, ks);
    } else {
      var rest := ks - {x};
      LeastExists(rest);
      var k :| IsLeast(k, rest);
      Lex.StrictTotalOrder();
      assert IsLeast(if Lex.Less(x, k) then x else k, ks);
    }
  }

  /** The keys in the order of `sort.Strings`. */
  ghost function SortedKeys(ks: set<string>): (r: seq<string>)
    ensures forall k :: k in r <==> k in ks
    decreases |ks|
  {
    if ks == {} then []
    else
      LeastExists(ks);
      var k :| IsLeast(k, ks);
      [k] + SortedKeys(ks - {k})
  }

  ghost function ValueTo(v: Json, rest: string): string
    decreases v, 1, 0
  {
    match v
    case JNull => "null" + rest
    case JBool(b) => (if b then "true" else "false") + rest
    case JNumber(l) => l + rest
    case JString(s) => StringTo(s, rest)
    case JArray(items) => "[" + ItemsTo(items, true, "]" + rest)
    case JObject(m) => "{" + MembersTo(v, SortedKeys(m.Keys), true, "}" + rest)
  }

  function Comma(first: bool): string {
    if first then "" else ","
  }

  ghost function ItemsTo(items: seq<Json>, first: bool, rest: string): string
    decreases items, 0, 0
  {
    if items == [] then rest
    else Comma(first) + ValueTo(items[0], ItemsTo(items[1..], false, rest))
  }

  ghost function MembersTo(v: Json, keys: seq<string>, first: bool, rest: string): string
    requires v.JObject? && forall k :: k in keys ==> k in v.members
    decreases v, 0, |keys|
  {
    if keys == [] then rest
    else
      assert keys[0] in v.members;
      Comma(first) + StringTo(keys[0], ":" + ValueTo(v.members[keys[0]], MembersTo(v, keys[1..], false, rest)))
  }

  /** The canonical text of a value. */
  ghost function Print(v: Json): string {
    ValueTo(v, "")
  }

  // ------------------------------------------------------------------ reading

  datatype Parsed<+T> = Malformed | Read(value: T, rest: string)

  predicate IsDigit(c: char) {
    '0' <= c <= '9'
  }

  function DigitsLen(s: string): (n: nat)
    ensures n <= |s|
  {
    if s != [] && IsDigit(s[0]) then 1 + DigitsLen(s[1..]) else 0
  }

  function IntLen(s: string): (n: nat)
    ensures n <= |s|
  {
    if s != [] && s[0] == '0' then 1 else DigitsLen(s)
  }

  function FracLen(s: string): (n: nat)
    ensures n <= |s|
  {
    if s != [] && s[0] == '.' && DigitsLen(s[1..]) > 0 then 1 + DigitsLen(s[1..]) else 0
  }

  function SignLen(s: string): (n: nat)
    ensures n <= |s|
  {
    if s != [] && (s[0] == '+' || s[0] == '-') then 1 else 0
  }

  function ExpLen(s: string): (n: nat)
    ensures n <= |s|
  {
    if s != [] && (s[0] == 'e' || s[0] == 'E') then
      var t := s[1..];
      var d := DigitsLen(t[SignLen(t)..]);
      if d > 0 then 1 + SignLen(t) + d else 0
    else 0
  }

  function MinusLen(s: string): (n: nat)
    ensures n <= |s|
  {
    if s != [] && s[0] == '-' then 1 else 0
  }

  /** The length of the longest number literal at the start, 0 if there is none. */
  function NumberLen(s: string): (n: nat)
    ensures n <= |s|
  {
    var m := MinusLen(s);
    var i := IntLen(s[m..]);
    if i == 0 then 0
    else
      var f := FracLen(s[m + i..]);
      m + i + f + ExpLen(s[m + i + f..])
  }

  predicate IsNumber(l: string) {
    l != [] && NumberLen(l) == |l|
  }

  function HexValue(c: char): (n: int)
    ensures -1 <= n < 16
  {
    if '0' <= c <= '9' then c as int - '0' as int
    else if 'a' <= c <= 'f' then c as int - 'a' as int + 10
    else if 'A' <= c <= 'F' then c as int - 'A' as int + 10
    else -1
  }

  /** Four hexadecimal digits naming a character outside the surrogates. */
  function ReadHex(s: string): Parsed<char> {
    if |s| < 4 || HexValue(s[0]) < 0 || HexValue(s[1]) < 0 || HexValue(s[2]) < 0 || HexValue(s[3]) < 0 then Malformed
    else
      var n := HexValue(s[0]) * 4096 + HexValue(s[1]) * 256 + HexValue(s[2]) * 16 + HexValue(s[3]);
      if 0xD800 <= n < 0xE000 then Malformed else Read(n as char, s[4..])
  }

  /** What follows a backslash. */
  function ReadEscape(s: string): Parsed<char> {
    if s == [] then Malformed
    else if s[0] == '\"' || s[0] == '\\' || s[0] == '/' then Read(s[0], s[1..])
    else if s[0] == 'b' then Read('\U{08}', s[1..])
    else if s[0] == 'f' then Read('\U{0c}', s[1..])
    else if s[0] == 'n' then Read('\n', s[1..])
    else if s[0] == 'r' then Read('\r', s[1..])
    else if s[0] == 't' then Read('\t', s[1..])
    else if s[0] == 'u' then ReadHex(s[1..])
    else Malformed
  }

  function ReadChar(s: string): (r: Parsed<char>)
    ensures r.Read? ==> |r.rest| < |s|
  {
    if s == [] || s[0] == '\"' || s[0] < ' ' then Malformed
    else if s[0] == '\\' then ReadEscape(s[1..])
    else Read(s[0], s[1..])
  }

  /** The characters up to the closing quote. */
  function ReadChars(s: string): (r: Parsed<string>)
    ensures r.Read? ==> |r.rest| < |s|
    decreases |s|
  {
    if s != [] && s[0] == '\"' then Read("", s[1..])
    else
      match ReadChar(s)
      case Malformed => Malformed
      case Read(c, t) =>
        match ReadChars(t)
        case Malformed => Malformed
        case Read(cs, u) => Read([c] + cs, u)
  }

  function ReadNumber(s: string): Parsed<Json> {
    var n := NumberLen(s);
    if n == 0 then Malformed else Read(JNumber(s[..n]), s[n..])
  }

  /** Later members override earlier ones, as in a map. */
  function FromPairs(ps: seq<(string, Json)>): map<string, Json> {
    if ps == [] then map[] else map[ps[0].0 := ps[0].1] + FromPairs(ps[1..])
  }

  function ReadValue(s: string): (r: Parsed<Json>)
    ensures r.Read? ==> |r.rest| < |s|
    decreases |s|, 1
  {
    if s == [] then Malformed
    else if "null" <= s then Read(JNull, s[4..])
    else if "true" <= s then Read(JBool(true), s[4..])
    else if "false" <= s then Read(JBool(false), s[5..])
    else if s[0] == '\"' then
      (match ReadChars(s[1..]) case Malformed => Malformed case Read(x, t) => Read(JString(x), t))
    else if s[0] == '[' then
      (match ReadItems(s[1..], true) case Malformed => Malformed case Read(xs, t) => Read(JArray(xs), t))
    else if s[0] == '{' then
      (match ReadMembers(s[1..], true) case Malformed => Malformed case Read(ps, t) => Read(JObject(FromPairs(ps)), t))
    else ReadNumber(s)
  }

  /** Past the separator: nothing before the first element, a comma before each later one. */
  function AfterComma(s: string, first: bool): Parsed<()> {
    if first then Read((), s) else if s != [] && s[0] == ',' then Read((), s[1..]) else Malformed
  }

  function ReadItems(s: string, first: bool): (r: Parsed<seq<Json>>)
    ensures r.Read? ==> |r.rest| < |s|
    decreases |s|, 2
  {
    if s != [] && s[0] == ']' then Read([], s[1..])
    else
      match AfterComma(s, first)
      case Malformed => Malformed
      case Read(_, t) =>
        match ReadValue(t)
        case Malformed => Malformed
        case Read(x, u) =>
          match ReadItems(u, false)
          case Malformed => Malformed
          case Read(xs, w) => Read([x] + xs, w)
  }

  function ReadMembers(s: string, first: bool): (r: Parsed<seq<(string, Json)>>)
    ensures r.Read? ==> |r.rest| < |s|
    decreases |s|, 2
  {
    if s != [] && s[0] == '}' then Read([], s[1..])
    else
      match AfterComma(s, first)
      case Malformed => Malformed
      case Read(_, t) =>
        match ReadMember(t)
        case Malformed => Malformed
        case Read(p, u) =>
          match ReadMembers(u, false)
          case Malformed => Malformed
          case Read(ps, w) => Read([p] + ps, w)
  }

  function ReadMember(s: string): (r: Parsed<(string, Json)>)
    ensures r.Read? ==> |r.rest| < |s|
    decreases |s|, 0
  {
    if s == [] || s[0] != '\"' then Malformed
    else
      match ReadChars(s[1..])
      case Malformed => Malformed
      case Read(k, t) =>
        if t == [] || t[0] != ':' then Malformed
        else
          match ReadValue(t[1..])
          case Malformed => Malformed
          case Read(x, u) => Read((k, x), u)
  }

  // ------------------------------------------------------------------ round trip

  /** Every number literal in the value is a JSON number, as the decoder guarantees. */
  ghost predicate WellFormed(v: Json)
    decreases v
  {
    match v
    case JNumber(l) => IsNumber(l)
    case JArray(items) => forall i :: 0 <= i < |items| ==> WellFormed(items[i])
    case JObject(m) => forall k :: k in m ==> WellFormed(m[k])
    case _ => true
  }

  /** What may follow a value inside a document. */
  predicate Delimits(rest: string) {
    rest == [] || rest[0] == ',' || rest[0] == ']' || rest[0] == '}'
  }

  lemma {:induction false} DigitsStop(s: string, rest: string)
    requires rest != [] ==> !IsDigit(rest[0])
    ensures DigitsLen(s + rest) == DigitsLen(s)
    decreases |s|
  {
    if s == [] {
      assert s + rest == rest;
    } else {
      assert (s + rest)[1..] == s[1..] + rest;
      DigitsStop(s[1..], rest);
    }
  }

  lemma IntStops(s: string, rest: string)
    requires Delimits(rest)
    ensures IntLen(s + rest) == IntLen(s)
  {
    DigitsStop(s, rest);
    if s == [] {
      assert s + rest == rest;
    }
  }

  lemma FracStops(s: string, rest: string)
    requires Delimits(rest)
    ensures FracLen(s + rest) == FracLen(s)
  {
    if s == [] {
      assert s + rest == rest;
    } else {
      assert (s + rest)[1..] == s[1..] + rest;
      DigitsStop(s[1..], rest);
    }
  }

  lemma ExpStops(s: string, rest: string)
    requires Delimits(rest)
    ensures ExpLen(s + rest) == ExpLen(s)
  {
    if s == [] {
      assert s + rest == rest;
    } else {
      var t := s[1..];
      assert (s + rest)[1..] == t + rest;
      assert t == [] ==> t + rest == rest;
      assert SignLen(t + rest) == SignLen(t);
      hide DigitsLen;
      assert (t + rest)[SignLen(t)..] == t[SignLen(t)..] + rest;
      DigitsStop(t[SignLen(t)..], rest);
    }
  }

  lemma NumberStops(l: string, rest: string)
    requires IsNumber(l) && Delimits(rest)
    ensures NumberLen(l + rest) == |l|
  {
    hide IntLen, FracLen, ExpLen, Delimits;
    var s := l + rest;
    var m := MinusLen(l);
    assert MinusLen(s) == m;
    assert s[m..] == l[m..] + rest;
    IntStops(l[m..], rest);
    var i := IntLen(l[m..]);
    assert s[m + i..] == l[m + i..] + rest;
    FracStops(l[m + i..], rest);
    var f := FracLen(l[m + i..]);
    assert s[m + i + f..] == l[m + i + f..] + rest;
    ExpStops(l[m + i + f..], rest);
  }

  lemma EscapeRoundTrip(c: char, rest: string)
    ensures ReadChar(EscapeChar(c) + rest) == Read(c, rest)
  {
    var e := EscapeChar(c);
    var s := e + rest;
    if e == [c] {
      assert s[1..] == rest;
    } else if |e| == 2 {
      assert s[1..] == [e[1]] + rest;
      assert s[1..][1..] == rest;
    } else {
      HexRoundTrip(c, rest);
    }
  }

  lemma HexDigits(n: nat)
    requires n < 16
    ensures HexValue(HEX[n]) == n
  {
  }

  lemma HexRoundTrip(c: char, rest: string)
    requires |EscapeChar(c)| == 6
    ensures ReadChar(EscapeChar(c) + rest) == Read(c, rest)
  {
    var e := EscapeChar(c);
    HexEscape(c);
    hide EscapeChar;
    var s := e + rest;
    assert s[0] == '\\' && s[1] == 'u';
    assert s[1..][1..] == s[2..];
    assert s[2..][4..] == rest;
    assert s[2..][0] == e[2] && s[2..][1] == e[3] && s[2..][2] == e[4] && s[2..][3] == e[5];
  }

  /** The six-character escapes spell the code of the character in four hexadecimal digits. */
  lemma HexEscape(c: char)
    requires |EscapeChar(c)| == 6
    ensures var e := EscapeChar(c);
      && e[0] == '\\' && e[1] == 'u'
      && ReadHex(e[2..]) == Read(c, "")
  {
    var e := EscapeChar(c);
    if c < ' ' {
      HexDigits(c as int / 16);
      HexDigits(c as int % 16);
    }
    assert e[2..][0] == e[2] && e[2..][1] == e[3] && e[2..][2] == e[4] && e[2..][3] == e[5];
  }

  lemma {:induction false} CharsRoundTrip(x: string, rest: string)
    ensures ReadChars(CharsTo(x, "\"" + rest)) == Read(x, rest)
    decreases |x|
  {
    if x == [] {
      assert ("\"" + rest)[1..] == rest;
    } else {
      var t := CharsTo(x[1..], "\"" + rest);
      EscapeRoundTrip(x[0], t);
      EscapeHead(x[0], t);
      CharsRoundTrip(x[1..], rest);
      assert [x[0]] + x[1..] == x;
    }
  }

  lemma EscapeHead(c: char, rest: string)
    ensures EscapeChar(c) + rest != [] && (EscapeChar(c) + rest)[0] != '\"'
  {
  }

  /** The first character tells the kinds of value apart, and from a closing bracket. */
  lemma ValueHead(v: Json, rest: string)
    requires WellFormed(v)
    ensures var s := ValueTo(v, rest);
      && s != []
      && (v.JString? <==> s[0] == '\"')
      && (v.JArray? <==> s[0] == '[')
      && (v.JObject? <==> s[0] == '{')
      && (v.JNumber? <==> s[0] == '-' || IsDigit(s[0]))
      && s[0] != ']' && s[0] != ','
  {
    match v
    case JNumber(l) => NumberHead(l);
    case JBool(b) => assert ValueTo(v, rest)[0] == if b then 't' else 'f';
    case JNull => assert ValueTo(v, rest)[0] == 'n';
    case _ =>
  }

  lemma NumberHead(l: string)
    requires IsNumber(l)
    ensures l[0] == '-' || IsDigit(l[0])
  {
    assert l[0..] == l;
  }

  ghost function PairsOf(v: Json, keys: seq<string>): seq<(string, Json)>
    requires v.JObject? && forall k :: k in keys ==> k in v.members
  {
    if keys == [] then [] else [(keys[0], v.members[keys[0]])] + PairsOf(v, keys[1..])
  }

  lemma {:induction false} PairsRead(v: Json, keys: seq<string>)
    requires v.JObject? && forall k :: k in keys ==> k in v.members
    ensures var m := FromPairs(PairsOf(v, keys));
      && (forall k :: k in m <==> k in keys)
      && (forall k :: k in m ==> m[k] == v.members[k])
    decreases |keys|
  {
    if keys != [] {
      PairsRead(v, keys[1..]);
      assert keys == [keys[0]] + keys[1..];
    }
  }

  lemma AllPairsRead(v: Json)
    requires v.JObject?
    ensures FromPairs(PairsOf(v, SortedKeys(v.members.Keys))) == v.members
  {
    PairsRead(v, SortedKeys(v.members.Keys));
  }

  lemma WordBack(v: Json, rest: string)
    requires v.JNull? || v.JBool?
    ensures ReadValue(ValueTo(v, rest)) == Read(v, rest)
  {
    var s := ValueTo(v, rest);
    match v
    case JNull => assert s[4..] == rest;
    case JBool(b) =>
      if b {
        assert s == "true" + rest && s[0] == 't' && s[..4] == "true" && s[4..] == rest;
      } else {
        assert s == "false" + rest && s[0] == 'f' && s[..5] == "false" && s[5..] == rest;
      }
  }

  lemma NumberBack(l: string, rest: string)
    requires IsNumber(l) && Delimits(rest)
    ensures ReadValue(l + rest) == Read(JNumber(l), rest)
  {
    hide NumberLen;
    NumberHead(l);
    NumberStops(l, rest);
    var s := l + rest;
    assert s[0] == l[0] && s[..|l|] == l && s[|l|..] == rest;
  }

  /** Text with another first character starts with none of the three words. */
  lemma NoWord(s: string)
    requires s != [] && s[0] != 'n' && s[0] != 't' && s[0] != 'f'
    ensures !("null" <= s) && !("true" <= s) && !("false" <= s)
  {
    NotPrefix("null", s);
    NotPrefix("true", s);
    NotPrefix("false", s);
  }

  lemma NotPrefix(w: string, s: string)
    requires w != [] && s != [] && s[0] != w[0]
    ensures !(w <= s)
  {
  }

  lemma StringBack(x: string, rest: string)
    ensures ReadValue(StringTo(x, rest)) == Read(JString(x), rest)
  {
    hide ReadChars, CharsTo;
    CharsRoundTrip(x, rest);
    NoWord(StringTo(x, rest));
    assert StringTo(x, rest)[1..] == CharsTo(x, "\"" + rest);
  }

  lemma BracketBack(items: seq<Json>, inner: string, rest: string)
    requires ReadItems(inner, true) == Read(items, rest)
    ensures ReadValue("[" + inner) == Read(JArray(items), rest)
  {
    hide ReadItems;
    NoWord("[" + inner);
    assert ("[" + inner)[1..] == inner;
  }

  lemma BraceBack(ps: seq<(string, Json)>, inner: string, rest: string)
    requires ReadMembers(inner, true) == Read(ps, rest)
    ensures ReadValue("{" + inner) == Read(JObject(FromPairs(ps)), rest)
  {
    hide ReadMembers, FromPairs;
    NoWord("{" + inner);
    assert ("{" + inner)[1..] == inner;
  }

  /** Reading back what was written gives the value and leaves exactly what followed it. */
  lemma {:induction false} ReadBack(v: Json, rest: string)
    requires WellFormed(v) && Delimits(rest)
    ensures ReadValue(ValueTo(v, rest)) == Read(v, rest)
    decreases v, 1, 0
  {
    hide ReadValue, ReadItems, ReadMembers, StringTo, ItemsTo, MembersTo, IsNumber, Delimits, SortedKeys, PairsOf;
    match v
    case JNull => WordBack(v, rest);
    case JBool(b) => WordBack(v, rest);
    case JNumber(l) => NumberBack(l, rest);
    case JString(x) => StringBack(x, rest);
    case JArray(items) =>
      ReadBackItems(items, true, rest);
      BracketBack(items, ItemsTo(items, true, "]" + rest), rest);
    case JObject(m) =>
      var keys := SortedKeys(m.Keys);
      ReadBackMembers(v, keys, true, rest);
      AllPairsRead(v);
      BraceBack(PairsOf(v, keys), MembersTo(v, keys, true, "}" + rest), rest);
  }

  lemma ItemsDelimit(items: seq<Json>, rest: string)
    ensures Delimits(ItemsTo(items, false, "]" + rest))
  {
  }

  lemma {:induction false} ReadBackItems(items: seq<Json>, first: bool, rest: string)
    requires forall i :: 0 <= i < |items| ==> WellFormed(items[i])
    ensures ReadItems(ItemsTo(items, first, "]" + rest), first) == Read(items, rest)
    decreases items, 0, 0
  {
    hide ReadValue, ValueTo, WellFormed, Delimits, IsDigit;
    var s := ItemsTo(items, first, "]" + rest);
    if items == [] {
      assert s[1..] == rest;
    } else {
      var tail := ItemsTo(items[1..], false, "]" + rest);
      var value := ValueTo(items[0], tail);
      ItemsDelimit(items[1..], rest);
      ReadBack(items[0], tail);
      ReadBackItems(items[1..], false, rest);
      ValueHead(items[0], tail);
      assert if first then s == value else s[0] == ',' && s[1..] == value;
      assert [items[0]] + items[1..] == items;
    }
  }

  lemma MembersDelimit(v: Json, keys: seq<string>, rest: string)
    requires v.JObject? && forall k :: k in keys ==> k in v.members
    ensures Delimits(MembersTo(v, keys, false, "}" + rest))
  {
  }

  lemma ReadBackMember(v: Json, k: string, tail: string)
    requires v.JObject? && k in v.members
    requires ReadValue(ValueTo(v.members[k], tail)) == Read(v.members[k], tail)
    ensures ReadMember(StringTo(k, ":" + ValueTo(v.members[k], tail))) == Read((k, v.members[k]), tail)
  {
    var after := ":" + ValueTo(v.members[k], tail);
    CharsRoundTrip(k, after);
    assert StringTo(k, after)[1..] == CharsTo(k, "\"" + after);
    assert after[1..] == ValueTo(v.members[k], tail);
  }

  lemma {:induction false} ReadBackMembers(v: Json, keys: seq<string>, first: bool, rest: string)
    requires v.JObject? && WellFormed(v) && forall k :: k in keys ==> k in v.members
    ensures ReadMembers(MembersTo(v, keys, first, "}" + rest), first) == Read(PairsOf(v, keys), rest)
    decreases v, 0, |keys|
  {
    hide ReadValue, ReadMember, ValueTo, Delimits;
    var s := MembersTo(v, keys, first, "}" + rest);
    if keys == [] {
      assert s[1..] == rest;
    } else {
      var k := keys[0];
      var tail := MembersTo(v, keys[1..], false, "}" + rest);
      var member := StringTo(k, ":" + ValueTo(v.members[k], tail));
      MembersDelimit(v, keys[1..], rest);
      ReadBack(v.members[k], tail);
      ReadBackMember(v, k, tail);
      ReadBackMembers(v, keys[1..], false, rest);
      assert if first then s == member else s[0] == ',' && s[1..] == member;
    }
  }

  /** Round trip: reading the canonical text of a value gives the value, whole. */
  lemma CanonicalRoundTrip(v: Json)
    requires WellFormed(v)
    ensures ReadValue(Print(v)) == Read(v, "")
  {
    ReadBack(v, "");
  }

  /** Equal canonical bytes mean equal bodies. */
  lemma CanonicalInjective(v: Json, w: Json)
    requires WellFormed(v) && WellFormed(w) && Print(v) == Print(w)
    ensures v == w
  {
    CanonicalRoundTrip(v);
    CanonicalRoundTrip(w);
  }

  // ------------------------------------------------------------------ the writer

  lemma {:induction false} CharsAppend(x: string, rest: string, more: string)
    ensures CharsTo(x, rest) + more == CharsTo(x, rest + more)
    decreases |x|
  {
    if x != [] {
      CharsAppend(x[1..], rest, more);
      assert (EscapeChar(x[0]) + CharsTo(x[1..], rest)) + more == EscapeChar(x[0]) + (CharsTo(x[1..], rest) + more);
    }
  }

  lemma StringAppend(x: string, rest: string, more: string)
    ensures StringTo(x, rest) + more == StringTo(x, rest + more)
  {
    CharsAppend(x, "\"" + rest, more);
    assert ("\"" + rest) + more == "\"" + (rest + more);
    assert StringTo(x, rest) + more == "\"" + (CharsTo(x, "\"" + rest) + more);
  }

  lemma {:induction false} ValueAppend(v: Json, rest: string, more: string)
    ensures ValueTo(v, rest) + more == ValueTo(v, rest + more)
    decreases v, 1, 0
  {
    hide StringTo, ItemsTo, MembersTo, SortedKeys;
    match v
    case JNull => assert ("null" + rest) + more == "null" + (rest + more);
    case JBool(b) =>
      var text := if b then "true" else "false";
      assert (text + rest) + more == text + (rest + more);
    case JNumber(l) => assert (l + rest) + more == l + (rest + more);
    case JString(s) => StringAppend(s, rest, more);
    case JArray(items) =>
      ItemsAppend(items, true, "]" + rest, more);
      assert ("]" + rest) + more == "]" + (rest + more);
      assert ("[" + ItemsTo(items, true, "]" + rest)) + more == "[" + (ItemsTo(items, true, "]" + rest) + more);
    case JObject(m) =>
      var keys := SortedKeys(m.Keys);
      MembersAppend(v, keys, true, "}" + rest, more);
      assert ("}" + rest) + more == "}" + (rest + more);
      assert ("{" + MembersTo(v, keys, true, "}" + rest)) + more == "{" + (MembersTo(v, keys, true, "}" + rest) + more);
  }

  lemma {:induction false} ItemsAppend(items: seq<Json>, first: bool, rest: string, more: string)
    ensures ItemsTo(items, first, rest) + more == ItemsTo(items, first, rest + more)
    decreases items, 0, 0
  {
    hide ValueTo;
    if items != [] {
      var tail := ItemsTo(items[1..], false, rest);
      ItemsAppend(items[1..], false, rest, more);
      ValueAppend(items[0], tail, more);
      assert (Comma(first) + ValueTo(items[0], tail)) + more == Comma(first) + (ValueTo(items[0], tail) + more);
    }
  }

  lemma {:induction false} MembersAppend(v: Json, keys: seq<string>, first: bool, rest: string, more: string)
    requires v.JObject? && forall k :: k in keys ==> k in v.members
    ensures MembersTo(v, keys, first, rest) + more == MembersTo(v, keys, first, rest + more)
    decreases v, 0, |keys|
  {
    hide ValueTo, StringTo;
    if keys != [] {
      var tail := MembersTo(v, keys[1..], false, rest);
      var x := v.members[keys[0]];
      assert keys[0] in v.members;
      MembersAppend(v, keys[1..], false, rest, more);
      ValueAppend(x, tail, more);
      StringAppend(keys[0], ":" + ValueTo(x, tail), more);
      assert (":" + ValueTo(x, tail)) + more == ":" + (ValueTo(x, tail) + more);
      var text := StringTo(keys[0], ":" + ValueTo(x, tail));
      assert (Comma(first) + text) + more == Comma(first) + (text + more);
    }
  }

  ghost predicate Ascending(keys: seq<string>) {
    forall i, j :: 0 <= i < j < |keys| ==> Lex.Less(keys[i], keys[j])
  }

  lemma EmptyKeys()
    ensures SortedKeys({}) == []
  {
  }

  lemma SortedKeysStep(ks: set<string>)
    requires ks != {}
    ensures var r := SortedKeys(ks);
      r != [] && IsLeast(r[0], ks) && r == [r[0]] + SortedKeys(ks - {r[0]})
  {
    hide Lex.Less;
  }

  lemma {:induction false} SortedKeysAscend(ks: set<string>)
    ensures Ascending(SortedKeys(ks))
    decreases |ks|
  {
    hide Lex.Less, SortedKeys;
    if ks == {} {
      EmptyKeys();
    } else {
      SortedKeysStep(ks);
      var r := SortedKeys(ks);
      var t := SortedKeys(ks - {r[0]});
      SortedKeysAscend(ks - {r[0]});
      forall i, j | 0 <= i < j < |r| ensures Lex.Less(r[i], r[j]) {
        if i == 0 {
          assert r[j] in t;
          Lex.Total(r[0], r[j]);
        } else {
          assert r[i] == t[i - 1] && r[j] == t[j - 1];
        }
      }
    }
  }

  function KeyOrder(): (string, string) -> bool {
    (a: string, b: string) => Lex.Less(a, b)
  }

  lemma {:induction false} AscendingUnique(a: seq<string>, b: seq<string>)
    requires Ascending(a) && Ascending(b) && forall k :: k in a <==> k in b
    ensures a == b
    decreases |a|
  {
    Lex.StrictTotalOrder();
    if a == [] {
      assert forall i :: 0 <= i < |b| ==> b[i] in b;
    } else {
      assert a[0] in b;
      assert b != [] && b[0] in a;
      assert a[0] == b[0];
      forall k ensures k in a[1..] <==> k in b[1..] {
        assert k in a[1..] <==> k in a && k != a[0];
        assert k in b[1..] <==> k in b && k != b[0];
      }
      AscendingUnique(a[1..], b[1..]);
      assert a == [a[0]] + a[1..] && b == [b[0]] + b[1..];
    }
  }

  /** Any listing of the keys sorts to the same sequence. */
  lemma SortedFound(found: seq<string>, ks: set<string>)
    requires NoDuplicates(found) && forall k :: k in found <==> k in ks
    ensures InsertionSort.Sort(found, KeyOrder()) == SortedKeys(ks)
  {
    hide SortedKeys;
    var r := InsertionSort.Sort(found, KeyOrder());
    KeyOrderWeak();
    InsertionSort.SortPermutes(found, KeyOrder());
    InsertionSort.SortSorts(found, KeyOrder());
    Rearranged(found, r);
    forall i, j | 0 <= i < j < |r| ensures Lex.Less(r[i], r[j]) {
      assert !KeyOrder()(r[j], r[i]) && r[i] != r[j];
      Lex.Total(r[i], r[j]);
    }
    SortedKeysAscend(ks);
    AscendingUnique(r, SortedKeys(ks));
  }

  lemma KeyOrderWeak()
    ensures InsertionSort.WeakOrder(KeyOrder())
  {
    Lex.StrictTotalOrder();
  }

  /** The keys in whatever order the map gives them, then `sort.Strings`. */
  method CollectKeys(m: map<string, Json>) returns (keys: seq<string>)
    ensures keys == SortedKeys(m.Keys)
  {
    var found: seq<string> := [];
    var todo := m.Keys;
    while todo != {}
      invariant todo <= m.Keys
      invariant forall k :: k in found <==> k in m.Keys && k !in todo
      invariant NoDuplicates(found)
      decreases |todo|
    {
      var k :| k in todo;
      assert k !in found;
      found := found + [k];
      todo := todo - {k};
    }
    var a := new string[|found|](i requires 0 <= i < |found| => found[i]);
    assert a[..] == found;
    SortedFound(found, m.Keys);
    InsertionSort.SortInPlace(a, KeyOrder());
    keys := a[..];
  }

  lemma ItemStep(text: string, items: seq<Json>, i: nat)
    requires i < |items|
    ensures text + ItemsTo(items[i..], i == 0, "]")
         == ((text + Comma(i == 0)) + Print(items[i])) + ItemsTo(items[i + 1..], false, "]")
  {
    hide ValueTo;
    var tail := ItemsTo(items[i + 1..], false, "]");
    assert items[i..][1..] == items[i + 1..];
    ValueAppend(items[i], "", tail);
    assert "" + tail == tail;
    assert text + (Comma(i == 0) + (Print(items[i]) + tail)) == ((text + Comma(i == 0)) + Print(items[i])) + tail;
  }

  lemma MemberStep(text: string, v: Json, keys: seq<string>, i: nat)
    requires v.JObject? && i < |keys| && forall k :: k in keys ==> k in v.members
    ensures keys[i] in v.members
    ensures text + MembersTo(v, keys[i..], i == 0, "}")
         == ((((text + Comma(i == 0)) + StringTo(keys[i], "")) + ":") + Print(v.members[keys[i]]))
            + MembersTo(v, keys[i + 1..], false, "}")
  {
    hide ValueTo, StringTo;
    var k := keys[i];
    var x := v.members[k];
    var tail := MembersTo(v, keys[i + 1..], false, "}");
    assert keys[i..][1..] == keys[i + 1..] && keys[i..][0] == k;
    ValueAppend(x, "", tail);
    assert "" + tail == tail;
    var after := ":" + (Print(x) + tail);
    StringAppend(k, "", after);
    assert "" + after == after;
    assert MembersTo(v, keys[i..], i == 0, "}") == Comma(i == 0) + (StringTo(k, "") + after);
    FourParts(text, Comma(i == 0), StringTo(k, ""), Print(x), tail);
  }

  lemma FourParts(a: string, b: string, c: string, d: string, e: string)
    ensures a + (b + (c + (":" + (d + e)))) == ((((a + b) + c) + ":") + d) + e
  {
  }

  lemma ArrayText(v: Json)
    requires v.JArray?
    ensures Print(v) == "[" + ItemsTo(v.items, true, "]")
  {
    hide ItemsTo;
    assert "]" + "" == "]";
  }

  lemma ObjectText(v: Json)
    requires v.JObject?
    ensures Print(v) == "{" + MembersTo(v, SortedKeys(v.members.Keys), true, "}")
  {
    hide MembersTo, SortedKeys;
    assert "}" + "" == "}";
  }

  class Buffer {
    var text: string

    constructor ()
      ensures text == ""
    {
      text := "";
    }

    method Write(s: string)
      modifies this
      ensures text == old(text) + s
    {
      text := text + s;
    }

    /** `writeCanonical`: appends the canonical text of the value, whatever the map order. */
    method WriteCanonical(v: Json)
      modifies this
      ensures text == old(text) + Print(v)
      decreases v, 2
    {
      match v
      case JNull =>
        Write("null");
      case JBool(b) =>
        Write(if b then "true" else "false");
      case JNumber(l) =>
        Write(l);
      case JString(s) =>
        Write(StringTo(s, ""));
      case JArray(items) =>
        WriteItems(v);
      case JObject(m) =>
        WriteMembers(v);
    }

    method WriteItems(v: Json)
      requires v.JArray?
      modifies this
      ensures text == old(text) + Print(v)
      decreases v, 1
    {
      hide ItemsTo, Comma, Print;
      var items := v.items;
      ghost var whole := text + Print(v);
      ArrayText(v);
      assert items[0..] == items;
      Write("[");
      for i := 0 to |items|
        invariant text + ItemsTo(items[i..], i == 0, "]") == whole
      {
        ItemStep(text, items, i);
        WriteComma(i);
        WriteCanonical(items[i]);
      }
      assert ItemsTo(items[|items|..], |items| == 0, "]") == "]" by {
        NoItems(items[|items|..], |items| == 0);
      }
      Write("]");
    }

    method WriteMembers(v: Json)
      requires v.JObject?
      modifies this
      ensures text == old(text) + Print(v)
      decreases v, 1
    {
      hide MembersTo, Comma, Print, StringTo;
      var keys := CollectKeys(v.members);
      ghost var whole := text + Print(v);
      ObjectText(v);
      assert keys[0..] == keys;
      Write("{");
      for i := 0 to |keys|
        invariant text + MembersTo(v, keys[i..], i == 0, "}") == whole
      {
        MemberStep(text, v, keys, i);
        WriteMember(v, keys[i], i);
      }
      assert MembersTo(v, keys[|keys|..], |keys| == 0, "}") == "}" by {
        NoMembers(v, keys[|keys|..], |keys| == 0);
      }
      Write("}");
    }

    method WriteMember(v: Json, k: string, i: nat)
      requires v.JObject? && k in v.members
      modifies this
      ensures text == (((old(text) + Comma(i == 0)) + StringTo(k, "")) + ":") + Print(v.members[k])
      decreases v, 0
    {
      hide Comma, StringTo, ValueTo;
      WriteComma(i);
      Write(StringTo(k, ""));
      Write(":");
      WriteCanonical(v.members[k]);
    }

    method WriteComma(i: nat)
      modifies this
      ensures text == old(text) + Comma(i == 0)
    {
      if i > 0 {
        Write(",");
      }
    }
  }

  lemma NoItems(items: seq<Json>, first: bool)
    requires items == []
    ensures ItemsTo(items, first, "]") == "]"
  {
  }

  lemma NoMembers(v: Json, keys: seq<string>, first: bool)
    requires v.JObject? && keys == []
    ensures MembersTo(v, keys, first, "}") == "}"
  {
  }
}

/** The bytes an entry is signed and hashed over: the envelope fields in schema order, empty
    optional fields left out, the body in canonical form.  Equal bytes mean equal entries,
    which is what lets the rest of the project take a hash to be the entry it covers. */
module Envelope {
  import opened CanonicalJson
  import opened Entries

  datatype Covers = Covers(from: string, to: string)

  datatype Refs = Refs(derivedFrom: seq<string>, repliesTo: string, supersedes: string, covers: Option<Covers>)

  /** An entry with its body decoded; an unsigned one has an empty `sig`. */
  datatype Wire = Wire(
    v: int, id: string, thread: string, kind: string, lane: string, author: string, onBehalfOf: string,
    seqNo: nat, lamport: nat, prev: string, ts: string, refs: Option<Refs>, body: Json, sig: string)

  predicate RefsEmpty(r: Option<Refs>) {
    r.None? || r.value == Refs([], "", "", None)
  }

  // ------------------------------------------------------------------ numbers

  function Digit(n: nat): char
    requires n < 10
  {
    '0' + n as char
  }

  function Decimal(n: nat): (s: string)
    ensures s != []
  {
    if n < 10 then [Digit(n)] else Decimal(n / 10) + [Digit(n % 10)]
  }

  function IntText(i: int): string {
    if i < 0 then "-" + Decimal(-i) else Decimal(i)
  }

  function DigitsValue(s: string): nat {
    if s == [] || !IsDigit(s[|s| - 1]) then 0
    else DigitsValue(s[..|s| - 1]) * 10 + (s[|s| - 1] as int - '0' as int)
  }

  lemma {:induction false} DecimalValue(n: nat)
    ensures DigitsValue(Decimal(n)) == n
    decreases n
  {
    if n >= 10 {
      DecimalValue(n / 10);
      assert Decimal(n)[..|Decimal(n)| - 1] == Decimal(n / 10);
    }
  }

  lemma {:induction false} AllDigits(s: string)
    requires forall i :: 0 <= i < |s| ==> IsDigit(s[i])
    ensures DigitsLen(s) == |s|
    decreases |s|
  {
    if s != [] {
      AllDigits(s[1..]);
    }
  }

  lemma {:induction false} DecimalDigits(n: nat)
    ensures forall i :: 0 <= i < |Decimal(n)| ==> IsDigit(Decimal(n)[i])
    ensures Decimal(n)[0] == '0' ==> |Decimal(n)| == 1
    ensures n > 0 ==> Decimal(n)[0] != '0'
    decreases n
  {
    if n >= 10 {
      DecimalDigits(n / 10);
      assert Decimal(n)[0] == Decimal(n / 10)[0];
    }
  }

  lemma DecimalIsInt(n: nat)
    ensures IntLen(Decimal(n)) == |Decimal(n)| && Decimal(n)[0] != '-'
  {
    DecimalDigits(n);
    AllDigits(Decimal(n));
  }

  lemma IntTextIsNumber(i: int)
    ensures IsNumber(IntText(i))
  {
    hide IntLen, Decimal;
    var d := Decimal(if i < 0 then -i else i);
    DecimalIsInt(if i < 0 then -i else i);
    var s := IntText(i);
    assert s[MinusLen(s)..] == d;
    assert s[|s|..] == [];
  }

  lemma IntTextInjective(i: int, j: int)
    requires IntText(i) == IntText(j)
    ensures i == j
  {
    hide Decimal;
    DecimalIsInt(if i < 0 then -i else i);
    DecimalIsInt(if j < 0 then -j else j);
    DecimalValue(if i < 0 then -i else i);
    DecimalValue(if j < 0 then -j else j);
    if i < 0 && j < 0 {
      assert IntText(i)[1..] == Decimal(-i) && IntText(j)[1..] == Decimal(-j);
    }
  }

  // ------------------------------------------------------------------ structs

  type Pairs = seq<(string, Json)>

  /** A struct field is a plain value, or a struct of plain values in its own field order. */
  datatype Field = Plain(value: Json) | Struct(fields: Pairs)

  ghost function PairsTo(ps: Pairs, first: bool, rest: string): string {
    if ps == [] then rest
    else Comma(first) + StringTo(ps[0].0, ":" + ValueTo(ps[0].1, PairsTo(ps[1..], false, rest)))
  }

  ghost function FieldTo(f: Field, rest: string): string {
    match f
    case Plain(v) => ValueTo(v, rest)
    case Struct(ps) => "{" + PairsTo(ps, true, "}" + rest)
  }

  ghost function FieldsTo(fs: seq<(string, Field)>, first: bool, rest: string): string {
    if fs == [] then rest
    else Comma(first) + StringTo(fs[0].0, ":" + FieldTo(fs[0].1, FieldsTo(fs[1..], false, rest)))
  }

  /** The value a reader sees in a field. */
  function FieldValue(f: Field): Json {
    match f
    case Plain(v) => v
    case Struct(ps) => JObject(FromPairs(ps))
  }

  function FieldValues(fs: seq<(string, Field)>): Pairs {
    if fs == [] then [] else [(fs[0].0, FieldValue(fs[0].1))] + FieldValues(fs[1..])
  }

  ghost predicate PairsFormed(ps: Pairs) {
    forall i :: 0 <= i < |ps| ==> WellFormed(ps[i].1)
  }

  ghost predicate FieldFormed(f: Field) {
    match f
    case Plain(v) => WellFormed(v)
    case Struct(ps) => PairsFormed(ps)
  }

  lemma PairsDelimit(ps: Pairs, rest: string)
    ensures Delimits(PairsTo(ps, false, "}" + rest))
  {
  }

  lemma FieldsDelimit(fs: seq<(string, Field)>, rest: string)
    ensures Delimits(FieldsTo(fs, false, "}" + rest))
  {
  }

  lemma MemberBack(k: string, text: string, v: Json, tail: string)
    requires ReadValue(text) == Read(v, tail)
    ensures ReadMember(StringTo(k, ":" + text)) == Read((k, v), tail)
  {
    hide ReadValue, CharsTo, ReadChars;
    CharsRoundTrip(k, ":" + text);
    assert StringTo(k, ":" + text)[1..] == CharsTo(k, "\"" + (":" + text));
    assert (":" + text)[1..] == text;
  }

  lemma MembersStep(member: string, first: bool, p: (string, Json), ps: Pairs, tail: string, rest: string)
    requires ReadMember(member) == Read(p, tail) && member != [] && member[0] == '\"'
    requires ReadMembers(tail, false) == Read(ps, rest)
    ensures ReadMembers(Comma(first) + member, first) == Read([p] + ps, rest)
  {
    hide ReadMember;
    var s := Comma(first) + member;
    assert if first then s == member else s[0] == ',' && s[1..] == member;
  }

  lemma MembersEnd(rest: string, first: bool)
    ensures ReadMembers("}" + rest, first) == Read([], rest)
  {
    assert ("}" + rest)[1..] == rest;
  }

  lemma {:induction false} PairsBack(ps: Pairs, first: bool, rest: string)
    requires PairsFormed(ps)
    ensures ReadMembers(PairsTo(ps, first, "}" + rest), first) == Read(ps, rest)
    decreases |ps|
  {
    hide ReadMembers, ReadMember, ReadValue, ValueTo, Delimits, WellFormed, CharsTo;
    if ps == [] {
      MembersEnd(rest, first);
    } else {
      var tail := PairsTo(ps[1..], false, "}" + rest);
      var text := ValueTo(ps[0].1, tail);
      PairsDelimit(ps[1..], rest);
      ReadBack(ps[0].1, tail);
      MemberBack(ps[0].0, text, ps[0].1, tail);
      PairsBack(ps[1..], false, rest);
      MembersStep(StringTo(ps[0].0, ":" + text), first, ps[0], ps[1..], tail, rest);
      assert [ps[0]] + ps[1..] == ps;
    }
  }

  lemma FieldBack(f: Field, tail: string)
    requires FieldFormed(f) && Delimits(tail)
    ensures ReadValue(FieldTo(f, tail)) == Read(FieldValue(f), tail)
  {
    hide ReadValue, ReadMembers, PairsTo, ValueTo, FromPairs, WellFormed, Delimits;
    match f
    case Plain(v) => ReadBack(v, tail);
    case Struct(ps) =>
      PairsBack(ps, true, tail);
      BraceBack(ps, PairsTo(ps, true, "}" + tail), tail);
  }

  lemma {:induction false} FieldsBack(fs: seq<(string, Field)>, first: bool, rest: string)
    requires forall i :: 0 <= i < |fs| ==> FieldFormed(fs[i].1)
    ensures ReadMembers(FieldsTo(fs, first, "}" + rest), first) == Read(FieldValues(fs), rest)
    decreases |fs|
  {
    hide ReadMembers, ReadMember, ReadValue, FieldTo, FieldValue, Delimits, FieldFormed, CharsTo;
    if fs == [] {
      MembersEnd(rest, first);
    } else {
      var tail := FieldsTo(fs[1..], false, "}" + rest);
      var text := FieldTo(fs[0].1, tail);
      FieldsDelimit(fs[1..], rest);
      FieldBack(fs[0].1, tail);
      MemberBack(fs[0].0, text, FieldValue(fs[0].1), tail);
      FieldsBack(fs[1..], false, rest);
      MembersStep(StringTo(fs[0].0, ":" + text), first,
                  (fs[0].0, FieldValue(fs[0].1)), FieldValues(fs[1..]), tail, rest);
    }
  }

  // ------------------------------------------------------------------ the entry

  function Texts(ss: seq<string>): (r: seq<Json>)
    ensures |r| == |ss| && forall i :: 0 <= i < |ss| ==> r[i] == JString(ss[i])
  {
    seq(|ss|, i requires 0 <= i < |ss| => JString(ss[i]))
  }

  /** A string field that is left out when empty. */
  function Optional(name: string, s: string): Pairs {
    if s == "" then [] else [(name, JString(s))]
  }

  function CoversValue(c: Covers): Json {
    JObject(map["from" := JString(c.from), "to" := JString(c.to)])
  }

  function PlainPairs(ps: Pairs): (r: seq<(string, Field)>)
    ensures |r| == |ps| && forall i :: 0 <= i < |ps| ==> r[i] == (ps[i].0, Plain(ps[i].1))
  {
    seq(|ps|, i requires 0 <= i < |ps| => (ps[i].0, Plain(ps[i].1)))
  }

  lemma {:induction false} FieldValuesConcat(fs: seq<(string, Field)>, gs: seq<(string, Field)>)
    ensures FieldValues(fs + gs) == FieldValues(fs) + FieldValues(gs)
    decreases |fs|
  {
    if fs == [] {
      assert fs + gs == gs;
    } else {
      assert (fs + gs)[1..] == fs[1..] + gs && (fs + gs)[0] == fs[0];
      FieldValuesConcat(fs[1..], gs);
    }
  }

  lemma {:induction false} PlainValues(ps: Pairs)
    ensures FieldValues(PlainPairs(ps)) == ps
    decreases |ps|
  {
    if ps != [] {
      assert PlainPairs(ps)[1..] == PlainPairs(ps[1..]);
      PlainValues(ps[1..]);
      assert [ps[0]] + ps[1..] == ps;
    }
  }

  function Front(e: Wire): (r: Pairs)
    ensures |r| == 6
  {
    [("v", JNumber(IntText(e.v))), ("id", JString(e.id)), ("thread", JString(e.thread)),
     ("kind", JString(e.kind)), ("lane", JString(e.lane)), ("author", JString(e.author))]
  }

  function Middle(e: Wire): (r: Pairs)
    ensures |r| == 4
  {
    [("seq", JNumber(IntText(e.seqNo))), ("lamport", JNumber(IntText(e.lamport))),
     ("prev", JString(e.prev)), ("ts", JString(e.ts))]
  }

  function RefsPart(e: Wire): seq<(string, Field)> {
    if RefsEmpty(e.refs) then [] else [("refs", Struct(RefsFields(e.refs.value)))]
  }

  function Tail(e: Wire, forSigning: bool): Pairs {
    [("body", e.body)] + (if forSigning then [] else Optional("sig", e.sig))
  }

  /** The envelope in schema order; for signing, `sig` is left out. */
  function Fields(e: Wire, forSigning: bool): seq<(string, Field)> {
    PlainPairs(Front(e) + Optional("on_behalf_of", e.onBehalfOf) + Middle(e))
      + RefsPart(e) + PlainPairs(Tail(e, forSigning))
  }

  /** `canonicalBytes`. */
  ghost function CanonicalBytes(e: Wire, forSigning: bool): string {
    "{" + FieldsTo(Fields(e, forSigning), true, "}")
  }

  /** The fields in the order and with the values a reader finds them. */
  function Flat(e: Wire, forSigning: bool): Pairs {
    Front(e) + Optional("on_behalf_of", e.onBehalfOf) + Middle(e) + FieldValues(RefsPart(e)) + Tail(e, forSigning)
  }

  lemma FlatFields(e: Wire, forSigning: bool)
    ensures FieldValues(Fields(e, forSigning)) == Flat(e, forSigning)
  {
    var a, c := Front(e) + Optional("on_behalf_of", e.onBehalfOf) + Middle(e), Tail(e, forSigning);
    FieldValuesConcat(PlainPairs(a) + RefsPart(e), PlainPairs(c));
    FieldValuesConcat(PlainPairs(a), RefsPart(e));
    PlainValues(a);
    PlainValues(c);
  }

  lemma FormedConcat(ps: Pairs, qs: Pairs)
    requires PairsFormed(ps) && PairsFormed(qs)
    ensures PairsFormed(ps + qs)
  {
  }

  lemma RefsFormed(r: Refs)
    ensures PairsFormed(RefsFields(r))
  {
    FormedConcat(ListPart(r), Optional("replies_to", r.repliesTo));
    FormedConcat(ListPart(r) + Optional("replies_to", r.repliesTo), Optional("supersedes", r.supersedes));
    FormedConcat(ListPart(r) + Optional("replies_to", r.repliesTo) + Optional("supersedes", r.supersedes),
                 CoversPart(r));
  }

  lemma FrontFormed(e: Wire)
    ensures PairsFormed(Front(e) + Optional("on_behalf_of", e.onBehalfOf) + Middle(e))
  {
    hide IntText, IsNumber;
    IntTextIsNumber(e.v);
    IntTextIsNumber(e.seqNo);
    IntTextIsNumber(e.lamport);
    FormedConcat(Front(e), Optional("on_behalf_of", e.onBehalfOf));
    FormedConcat(Front(e) + Optional("on_behalf_of", e.onBehalfOf), Middle(e));
  }

  lemma FieldsFormed(e: Wire, forSigning: bool)
    requires WellFormed(e.body)
    ensures forall i :: 0 <= i < |Fields(e, forSigning)| ==> FieldFormed(Fields(e, forSigning)[i].1)
  {
    hide Front, Middle, RefsFields;
    FrontFormed(e);
    if !RefsEmpty(e.refs) {
      RefsFormed(e.refs.value);
    }
    assert PairsFormed(Tail(e, forSigning));
  }

  lemma BytesBack(e: Wire, forSigning: bool)
    requires WellFormed(e.body)
    ensures ReadMembers(CanonicalBytes(e, forSigning)[1..], true) == Read(Flat(e, forSigning), "")
  {
    hide Fields, FieldsTo, ReadMembers, FieldFormed, Flat;
    FieldsFormed(e, forSigning);
    FieldsBack(Fields(e, forSigning), true, "");
    FlatFields(e, forSigning);
    assert "}" + "" == "}";
    assert CanonicalBytes(e, forSigning)[1..] == FieldsTo(Fields(e, forSigning), true, "}");
  }

  // ------------------------------------------------------------------ nothing is lost

  lemma MergeAssociative(a: map<string, Json>, b: map<string, Json>, c: map<string, Json>)
    ensures a + (b + c) == (a + b) + c
  {
  }

  lemma {:induction false} FromPairsConcat(ps: Pairs, qs: Pairs)
    ensures FromPairs(ps + qs) == FromPairs(ps) + FromPairs(qs)
    decreases |ps|
  {
    if ps == [] {
      assert ps + qs == qs;
    } else {
      assert (ps + qs)[1..] == ps[1..] + qs && (ps + qs)[0] == ps[0];
      FromPairsConcat(ps[1..], qs);
      MergeAssociative(map[ps[0].0 := ps[0].1], FromPairs(ps[1..]), FromPairs(qs));
    }
  }

  lemma OneOptional(name: string, s: string)
    ensures FromPairs(Optional(name, s)) == if s == "" then map[] else map[name := JString(s)]
  {
    if s != "" {
      assert Optional(name, s)[1..] == [];
    }
  }

  function ListPart(r: Refs): Pairs {
    if r.derivedFrom == [] then [] else [("derived_from", JArray(Texts(r.derivedFrom)))]
  }

  function CoversPart(r: Refs): Pairs {
    if r.covers.None? then [] else [("covers", CoversValue(r.covers.value))]
  }

  function RefsFields(r: Refs): Pairs {
    ListPart(r) + Optional("replies_to", r.repliesTo) + Optional("supersedes", r.supersedes) + CoversPart(r)
  }

  lemma RefsMap(r: Refs)
    ensures FromPairs(RefsFields(r)) ==
      ((FromPairs(ListPart(r)) + FromPairs(Optional("replies_to", r.repliesTo)))
       + FromPairs(Optional("supersedes", r.supersedes))) + FromPairs(CoversPart(r))
  {
    hide ListPart, CoversPart, Optional, FromPairs;
    var a, b := ListPart(r), Optional("replies_to", r.repliesTo);
    var c, d := Optional("supersedes", r.supersedes), CoversPart(r);
    FromPairsConcat(a + b + c, d);
    FromPairsConcat(a + b, c);
    FromPairsConcat(a, b);
  }

  lemma RefsRead(r: Refs)
    ensures var m := FromPairs(RefsFields(r));
      && ("derived_from" in m <==> r.derivedFrom != [])
      && ("derived_from" in m ==> m["derived_from"] == JArray(Texts(r.derivedFrom)))
      && ("replies_to" in m <==> r.repliesTo != "") && ("replies_to" in m ==> m["replies_to"] == JString(r.repliesTo))
      && ("supersedes" in m <==> r.supersedes != "") && ("supersedes" in m ==> m["supersedes"] == JString(r.supersedes))
      && ("covers" in m <==> r.covers.Some?) && ("covers" in m ==> m["covers"] == CoversValue(r.covers.value))
  {
    hide CoversValue, Texts, Optional, ListPart, CoversPart, RefsFields, FromPairs;
    RefsMap(r);
    OneOptional("replies_to", r.repliesTo);
    OneOptional("supersedes", r.supersedes);
    OneListPart(r);
    OneCoversPart(r);
  }

  lemma OneListPart(r: Refs)
    ensures FromPairs(ListPart(r)) ==
      if r.derivedFrom == [] then map[] else map["derived_from" := JArray(Texts(r.derivedFrom))]
  {
    hide Texts;
    if r.derivedFrom != [] {
      assert ListPart(r)[1..] == [];
    }
  }

  lemma OneCoversPart(r: Refs)
    ensures FromPairs(CoversPart(r)) == if r.covers.None? then map[] else map["covers" := CoversValue(r.covers.value)]
  {
    hide CoversValue;
    if r.covers.Some? {
      assert CoversPart(r)[1..] == [];
    }
  }

  lemma RefsInjective(r: Refs, q: Refs)
    requires FromPairs(RefsFields(r)) == FromPairs(RefsFields(q))
    ensures r == q
  {
    hide RefsFields, FromPairs;
    RefsRead(r);
    RefsRead(q);
    assert r.derivedFrom == q.derivedFrom by {
      assert Texts(r.derivedFrom) == Texts(q.derivedFrom);
      forall i | 0 <= i < |r.derivedFrom| ensures r.derivedFrom[i] == q.derivedFrom[i] {
        assert Texts(r.derivedFrom)[i] == Texts(q.derivedFrom)[i];
      }
    }
    if r.covers.Some? {
      CoversInjective(r.covers.value, q.covers.value);
    }
  }

  lemma CoversInjective(c: Covers, d: Covers)
    requires CoversValue(c) == CoversValue(d)
    ensures c == d
  {
    assert CoversValue(c).members["from"] == CoversValue(d).members["from"];
    assert CoversValue(c).members["to"] == CoversValue(d).members["to"];
  }

  /** What the bytes carry: empty refs are as good as none, and signing bytes have no `sig`. */
  function Normal(e: Wire, forSigning: bool): Wire {
    e.(refs := if RefsEmpty(e.refs) then None else e.refs, sig := if forSigning then "" else e.sig)
  }

  lemma SameFront(e: Wire, f: Wire, forSigning: bool)
    requires Flat(e, forSigning) == Flat(f, forSigning)
    ensures e.v == f.v && e.id == f.id && e.thread == f.thread && e.kind == f.kind && e.lane == f.lane
      && e.author == f.author
    ensures e.onBehalfOf == f.onBehalfOf
    ensures Middle(e) == Middle(f)
    ensures FieldValues(RefsPart(e)) + Tail(e, forSigning) == FieldValues(RefsPart(f)) + Tail(f, forSigning)
  {
    hide IntText, FieldValues, RefsPart, Tail;
    var x, y := Flat(e, forSigning), Flat(f, forSigning);
    var re, rf := FieldValues(RefsPart(e)) + Tail(e, forSigning), FieldValues(RefsPart(f)) + Tail(f, forSigning);
    var oe, of := Optional("on_behalf_of", e.onBehalfOf), Optional("on_behalf_of", f.onBehalfOf);
    assert x == Front(e) + (oe + (Middle(e) + re)) && y == Front(f) + (of + (Middle(f) + rf));
    assert x[..6] == Front(e) && y[..6] == Front(f);
    assert Front(e)[0].1.literal == Front(f)[0].1.literal;
    IntTextInjective(e.v, f.v);
    assert Front(e)[1] == Front(f)[1] && Front(e)[2] == Front(f)[2] && Front(e)[3] == Front(f)[3]
        && Front(e)[4] == Front(f)[4] && Front(e)[5] == Front(f)[5];
    assert x[6..] == oe + (Middle(e) + re) && y[6..] == of + (Middle(f) + rf);
    assert x[6].0 == if e.onBehalfOf == "" then "seq" else "on_behalf_of";
    assert y[6].0 == if f.onBehalfOf == "" then "seq" else "on_behalf_of";
    assert |oe| == |of|;
    assert e.onBehalfOf != "" ==> x[6] == oe[0] && y[6] == of[0];
    assert x[6..][|oe|..] == Middle(e) + re && y[6..][|of|..] == Middle(f) + rf;
    assert (Middle(e) + re)[..4] == Middle(e) && (Middle(f) + rf)[..4] == Middle(f);
    assert (Middle(e) + re)[4..] == re && (Middle(f) + rf)[4..] == rf;
  }

  lemma SameMiddle(e: Wire, f: Wire)
    requires Middle(e) == Middle(f)
    ensures e.seqNo == f.seqNo && e.lamport == f.lamport && e.prev == f.prev && e.ts == f.ts
  {
    hide IntText;
    assert Middle(e)[0].1.literal == Middle(f)[0].1.literal && Middle(e)[1].1.literal == Middle(f)[1].1.literal;
    assert Middle(e)[2] == Middle(f)[2] && Middle(e)[3] == Middle(f)[3];
    IntTextInjective(e.seqNo, f.seqNo);
    IntTextInjective(e.lamport, f.lamport);
  }

  lemma RefsValues(e: Wire)
    ensures FieldValues(RefsPart(e)) ==
      if RefsEmpty(e.refs) then [] else [("refs", JObject(FromPairs(RefsFields(e.refs.value))))]
  {
    hide RefsFields, FromPairs;
    if !RefsEmpty(e.refs) {
      assert RefsPart(e)[1..] == [];
    }
  }

  lemma SameRest(e: Wire, f: Wire, forSigning: bool)
    requires FieldValues(RefsPart(e)) + Tail(e, forSigning) == FieldValues(RefsPart(f)) + Tail(f, forSigning)
    ensures Normal(e, forSigning).refs == Normal(f, forSigning).refs
    ensures e.body == f.body && Normal(e, forSigning).sig == Normal(f, forSigning).sig
  {
    hide RefsFields, FromPairs, FieldValues, RefsPart;
    RefsValues(e);
    RefsValues(f);
    var a, b := FieldValues(RefsPart(e)), FieldValues(RefsPart(f));
    var x, y := a + Tail(e, forSigning), b + Tail(f, forSigning);
    assert x[0].0 == if RefsEmpty(e.refs) then "body" else "refs";
    assert y[0].0 == if RefsEmpty(f.refs) then "body" else "refs";
    assert |a| == |b|;
    if !RefsEmpty(e.refs) {
      assert x[0] == a[0] && y[0] == b[0];
      RefsInjective(e.refs.value, f.refs.value);
    }
    assert x[|a|..] == Tail(e, forSigning) && y[|b|..] == Tail(f, forSigning);
    assert Tail(e, forSigning)[0] == Tail(f, forSigning)[0];
    assert |Tail(e, forSigning)| == |Tail(f, forSigning)|;
    assert |Tail(e, forSigning)| == 2 ==> Tail(e, forSigning)[1] == Tail(f, forSigning)[1];
  }

  /** Two entries with the same bytes are the same entry, for hashing in every field, for
      signing in every field but `sig`. */
  lemma BytesDetermineEntry(e: Wire, f: Wire, forSigning: bool)
    requires WellFormed(e.body) && WellFormed(f.body)
    ensures CanonicalBytes(e, forSigning) == CanonicalBytes(f, forSigning)
       <==> Normal(e, forSigning) == Normal(f, forSigning)
  {
    hide CanonicalBytes, Flat, ReadMembers, Normal;
    if CanonicalBytes(e, forSigning) == CanonicalBytes(f, forSigning) {
      BytesBack(e, forSigning);
      BytesBack(f, forSigning);
      SameFront(e, f, forSigning);
      SameMiddle(e, f);
      SameRest(e, f, forSigning);
      NormalFields(e, f, forSigning);
    }
    if Normal(e, forSigning) == Normal(f, forSigning) {
      NormalSameBytes(e, forSigning);
      NormalSameBytes(f, forSigning);
    }
  }

  lemma NormalFields(e: Wire, f: Wire, forSigning: bool)
    requires e.v == f.v && e.id == f.id && e.thread == f.thread && e.kind == f.kind && e.lane == f.lane
      && e.author == f.author
    requires e.onBehalfOf == f.onBehalfOf && e.seqNo == f.seqNo && e.lamport == f.lamport && e.prev == f.prev
      && e.ts == f.ts
    requires Normal(e, forSigning).refs == Normal(f, forSigning).refs && e.body == f.body
    requires Normal(e, forSigning).sig == Normal(f, forSigning).sig
    ensures Normal(e, forSigning) == Normal(f, forSigning)
  {
  }

  lemma NormalSameBytes(e: Wire, forSigning: bool)
    ensures CanonicalBytes(Normal(e, forSigning), forSigning) == CanonicalBytes(e, forSigning)
  {
    hide FieldsTo, PlainPairs, RefsFields;
    assert RefsPart(Normal(e, forSigning)) == RefsPart(e);
    assert Tail(Normal(e, forSigning), forSigning) == Tail(e, forSigning);
  }

  // ------------------------------------------------------------------ the schema

  /** The members of the references object, by name and in order. */
  function RefsByName(r: Refs): Pairs {
    (if r.derivedFrom == [] then [] else [("derived_from", JArray(Texts(r.derivedFrom)))])
    + (if r.repliesTo == "" then [] else [("replies_to", JString(r.repliesTo))])
    + (if r.supersedes == "" then [] else [("supersedes", JString(r.supersedes))])
    + (match r.covers
       case None => []
       case Some(c) => [("covers", JObject(map["from" := JString(c.from), "to" := JString(c.to)]))])
  }

  /** The members of the envelope, by name and in order. */
  function EntryByName(e: Wire, forSigning: bool): Pairs {
    [("v", JNumber(IntText(e.v))), ("id", JString(e.id)), ("thread", JString(e.thread)),
     ("kind", JString(e.kind)), ("lane", JString(e.lane)), ("author", JString(e.author))]
    + (if e.onBehalfOf == "" then [] else [("on_behalf_of", JString(e.onBehalfOf))])
    + [("seq", JNumber(IntText(e.seqNo))), ("lamport", JNumber(IntText(e.lamport))),
       ("prev", JString(e.prev)), ("ts", JString(e.ts))]
    + (if RefsEmpty(e.refs) then [] else [("refs", JObject(FromPairs(RefsByName(e.refs.value))))])
    + [("body", e.body)]
    + (if forSigning || e.sig == "" then [] else [("sig", JString(e.sig))])
  }

  /** The schema, independently of how the bytes are put together: reading them back gives each
      field of the entry under its name, in the order of the schema, with the empty optional
      ones and, for signing, the signature left out. */
  lemma BytesFollowSchema(e: Wire, forSigning: bool)
    requires WellFormed(e.body)
    ensures ReadMembers(CanonicalBytes(e, forSigning)[1..], true) == Read(EntryByName(e, forSigning), "")
  {
    BytesBack(e, forSigning);
    RefsValues(e);
    hide CanonicalBytes, ReadMembers, IntText, FieldValues, RefsPart, FromPairs, WellFormed, Texts;
    if !RefsEmpty(e.refs) {
      assert RefsFields(e.refs.value) == RefsByName(e.refs.value);
    }
    assert Flat(e, forSigning) == EntryByName(e, forSigning);
  }
}

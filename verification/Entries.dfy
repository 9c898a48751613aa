/** The protocol's entry: the signed, hash-chained unit of data. */
module Entries {
  import Lex

  datatype Option<+T> = None | Some(value: T)

  const MAX_U64 := 0xFFFF_FFFF_FFFF_FFFF

  type u64 = x: nat | x <= MAX_U64

  /** `x + 1` in 64-bit unsigned arithmetic. */
  function Succ(x: u64): u64 {
    if x == MAX_U64 then 0 else x + 1
  }

  datatype Lane = LaneControl | LaneSummary | LaneContent | LaneOther(name: string)

  datatype Kind =
    | KindThread | KindMessage | KindMembership | KindDelegation | KindAccessRequest
    | KindGrant | KindDeny | KindRevoke | KindSummary | KindThreadCard | KindRedaction
    | KindExtension(name: string)

  /** What the permission fold's decoder for the entry's kind reads from the body.  A body
      that does not decode for its kind is any other constructor. */
  datatype Body =
    | ThreadBody(stewards: seq<string>, title: string, discoverable: bool)
    | MembershipBody(member: string, role: string)
    | DelegationBody(agent: string, revoked: bool)
    | AccessRequestBody(scopes: seq<string>, reason: string)
    | GrantBody(principal: string, scopes: seq<string>, ttlSeconds: int)
    | OtherBody(text: string)

  /** The chain link.  SHA-256 over the canonical bytes is taken to be injective, so a hash
      is the entry it was computed from. */
  datatype Hash = GenesisPrev | HashOf(entry: Entry)

  /** `sig` is the key whose signature over all the other fields the entry carries; `None`
      when it carries no such signature.  `ts` is the parsed timestamp, if it parses.  `rest`
      holds every other byte the hash covers: references, body keys that no decoder reads,
      the spelling of the timestamp and of the signature. */
  datatype Entry = Entry(
    v: int, id: string, thread: string, kind: Kind, lane: Lane,
    author: string, onBehalfOf: string, seqNo: u64, lamport: u64, prev: Hash,
    ts: Option<int>, body: Body, sig: Option<string>, rest: string)

  const ENVELOPE_VERSION := 0

  predicate LaneValid(l: Lane) {
    l == LaneControl || l == LaneSummary || l == LaneContent
  }

  const PRINCIPAL_PREFIX := "ed25519:"

  /** The part of principal id decoding that is not the base32 alphabet and length. */
  predicate IsPrincipal(p: string) {
    PRINCIPAL_PREFIX <= p
  }

  /** Structural validity and the author signature; not the chain position. */
  predicate Validate(e: Entry) {
    && e.v == ENVELOPE_VERSION
    && LaneValid(e.lane)
    && e.seqNo >= 1
    && e.lamport >= 1
    && (e.kind.KindExtension? ==> !("core." <= e.kind.name))
    && IsPrincipal(e.author)
    && (e.onBehalfOf != "" ==> IsPrincipal(e.onBehalfOf))
    && e.sig == Some(e.author)
  }

  /** The protocol's total order: (lamport, author, id). */
  predicate Less(a: Entry, b: Entry) {
    if a.lamport != b.lamport then a.lamport < b.lamport
    else if a.author != b.author then Lex.Less(a.author, b.author)
    else Lex.Less(a.id, b.id)
  }

  lemma LessTransitive(a: Entry, b: Entry, c: Entry)
    requires Less(a, b) && Less(b, c)
    ensures Less(a, c)
  {
    Lex.StrictTotalOrder();
  }

  lemma LessTotal(a: Entry, b: Entry)
    ensures !Less(a, a)
    ensures a.id != b.id ==> Less(a, b) || Less(b, a)
    ensures !(Less(a, b) && Less(b, a))
  {
    Lex.StrictTotalOrder();
  }

  /** The order by parts: the smaller clock first; at one clock the author whose id differs
      first by a smaller character or is a proper prefix; for one author the entry id likewise. */
  lemma LessByParts(a: Entry, b: Entry)
    ensures a.lamport != b.lamport ==> (Less(a, b) <==> a.lamport < b.lamport)
    ensures a.lamport == b.lamport && a.author != b.author ==>
      (Less(a, b) <==> exists k: nat :: Lex.AheadAt(a.author, b.author, k))
    ensures a.lamport == b.lamport && a.author == b.author ==>
      (Less(a, b) <==> exists k: nat :: Lex.AheadAt(a.id, b.id, k))
  {
    Lex.FirstDifference(a.author, b.author);
    Lex.FirstDifference(a.id, b.id);
  }

  /** One hash chain: the entries of one author in one lane of one thread. */
  datatype ChainKey = ChainKey(thread: string, author: string, lane: Lane)

  function KeyOf(e: Entry): ChainKey {
    ChainKey(e.thread, e.author, e.lane)
  }
}

/**
 * Audit events, stored rows and the canonical payload that is hashed
 * (crates/specton-audit/src/event.rs, crates/specton-audit/src/hash.rs).
 */
module AuditEvents {
  import opened Common
  import opened Json

  datatype Category = Auth | Push | Pull | Delete | Sign | Promote | Policy | Key | Admin | Rebuild | Scan

  datatype Actor = Actor(sub: string, role: Option<string>, sourceIp: Option<string>, ua: Option<string>)

  datatype Subject = Subject(tenant: Option<string>, project: Option<string>, repo: Option<string>,
                             reference: Option<string>, digest: Option<string>)

  datatype Outcome = Success | Failure(code: string)

  datatype Event = Event(at: int, category: Category, action: string, actor: Actor,
                         subject: Option<Subject>, outcome: Outcome, attributes: map<string, Json>)

  datatype Row = Row(id: int, event: Event, tenant: Option<string>, prevHash: Option<Bytes>,
                     rowHash: Bytes, keyId: string)

  /** What is hashed; the field order of its JSON text is part of the contract. */
  datatype Payload = Payload(at: int, category: string, action: string, actorSub: string,
                             actorIp: Option<string>, actorUa: Option<string>, subject: Option<Subject>,
                             outcome: string, errorCode: Option<string>, attributes: map<string, Json>,
                             keyId: string)

  type Hash32 = h: Bytes | |h| == 32 witness seq(32, _ => 0)

  /** The previous hash of the first row. */
  function Genesis(): (g: Hash32)
    ensures forall i :: 0 <= i < 32 ==> g[i] == 0
  {
    seq(32, _ => 0)
  }

  /** HMAC over the previous hash and the payload's JSON; nothing when the JSON cannot be written. */
  type Mac = (Bytes, Bytes, Payload) -> Option<Hash32>

  function CategoryText(c: Category): (s: string) {
    match c
    case Auth => "auth"
    case Push => "push"
    case Pull => "pull"
    case Delete => "delete"
    case Sign => "sign"
    case Promote => "promote"
    case Policy => "policy"
    case Key => "key"
    case Admin => "admin"
    case Rebuild => "rebuild"
    case Scan => "scan"
  }

  /** `Category::parse`, the inverse of `as_str` on exactly the eleven names. */
  function ParseCategory(s: string): (c: Option<Category>)
    ensures c.Some? ==> CategoryText(c.value) == s
    ensures c.None? ==> forall k: Category :: CategoryText(k) != s
  {
    if s == "auth" then Some(Auth)
    else if s == "push" then Some(Push)
    else if s == "pull" then Some(Pull)
    else if s == "delete" then Some(Delete)
    else if s == "sign" then Some(Sign)
    else if s == "promote" then Some(Promote)
    else if s == "policy" then Some(Policy)
    else if s == "key" then Some(Key)
    else if s == "admin" then Some(Admin)
    else if s == "rebuild" then Some(Rebuild)
    else if s == "scan" then Some(Scan)
    else None
  }

  function Canonical(e: Event, keyId: string): Payload {
    Payload(e.at, CategoryText(e.category), e.action, e.actor.sub, e.actor.sourceIp, e.actor.ua, e.subject,
            if e.outcome.Success? then "success" else "failure",
            if e.outcome.Success? then None else Some(e.outcome.code),
            e.attributes, keyId)
  }

  /** `compute_row_hash`: the keyed hash of the previous hash followed by the canonical payload. */
  function RowHash(mac: Mac, key: Bytes, prev: Bytes, e: Event, keyId: string): Option<Hash32> {
    mac(key, prev, Canonical(e, keyId))
  }

  /** Two events that differ at most in the actor's role. */
  ghost predicate SameButRole(a: Event, b: Event) {
    a.(actor := a.actor.(role := None)) == b.(actor := b.actor.(role := None))
  }

  lemma CategoryTextInjective(a: Category, b: Category)
    requires CategoryText(a) == CategoryText(b)
    ensures a == b
  {
    var x, y := CategoryText(a), CategoryText(b);
    assert |x| == |y| && x[0] == y[0] && x[1] == y[1] && x[2] == y[2];
  }

  /** The payload fixes the key id and every field of the event except the actor's role. */
  lemma CanonicalBinds(a: Event, aKey: string, b: Event, bKey: string)
    ensures Canonical(a, aKey) == Canonical(b, bKey) <==> aKey == bKey && SameButRole(a, b)
  {
    if Canonical(a, aKey) == Canonical(b, bKey) {
      CategoryTextInjective(a.category, b.category);
    }
  }

  /** What was done, to what, how it ended and under which key can be read off the payload, field by field. */
  lemma PayloadTellsEvent(e: Event, keyId: string)
    ensures var p := Canonical(e, keyId);
            && p.at == e.at && p.action == e.action && ParseCategory(p.category) == Some(e.category)
            && p.actorSub == e.actor.sub && p.actorIp == e.actor.sourceIp && p.actorUa == e.actor.ua
            && p.subject == e.subject && p.attributes == e.attributes && p.keyId == keyId
            && (p.outcome == "success" <==> e.outcome.Success?) && (p.outcome == "failure" <==> e.outcome.Failure?)
            && p.errorCode == (if e.outcome.Failure? then Some(e.outcome.code) else None)
  {
    var k := ParseCategory(CategoryText(e.category));
    if k.Some? {
      CategoryTextInjective(k.value, e.category);
    }
    assert "success"[0] != "failure"[0];
  }
}

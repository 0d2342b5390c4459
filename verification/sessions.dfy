/**
  Signed session cookies: base64url payload, a dot, base64url signature. HMAC, JSON and
  Python's sorting are parameters.
 */
module Sessions {
  import opened Bytes
  import opened Wrappers
  import opened Base64
  import opened Strings

  /** A JSON document. */
  datatype Json =
    | Null
    | Bool(b: bool)
    | Number(n: int)
    | Real(r: real)
    | Text(text: string)
    | List(items: seq<Json>)
    | Object(fields: map<string, Json>)

  datatype Library = Library(
    hmac: (bytes, bytes) -> bytes,
    dumper: map<string, Json> -> bytes,
    loader: bytes -> Option<Json>,
    sorter: set<string> -> seq<string>,
    intParser: string -> Option<int>)

  function Hmac(l: Library, secret: bytes, message: bytes): bytes { l.hmac(secret, message) }
  function Dumps(l: Library, fields: map<string, Json>): bytes { l.dumper(fields) }
  function Loads(l: Library, b: bytes): Option<Json> { l.loader(b) }
  function Sorted(l: Library, s: set<string>): seq<string> { l.sorter(s) }
  function ParseInt(l: Library, s: string): Option<int> { l.intParser(s) }

  /** Loading gives a dumped document back: asked of the documents at hand, not of all there are. */
  ghost predicate Reads(l: Library, fields: map<string, Json>) {
    Loads(l, Dumps(l, fields)) == Some(Object(fields))
  }

  /** Sorting keeps the elements. */
  ghost predicate Sorts(l: Library) {
    forall s, x :: x in Sorted(l, s) <==> x in s
  }

  // -------------------------------------------------------------- signing ----

  function Sign(l: Library, secret: bytes, payload: bytes): string {
    B64u(payload) + "." + B64u(Hmac(l, secret, payload))
  }

  /** The payload if the signature is right; every failure on the way is an answer, not an error. */
  function Unsign(l: Library, secret: bytes, value: string): Option<bytes> {
    var parts := Split(value, '.', 1);
    if |parts| != 2 then None
    else match B64uDecode(parts[0])
      case None => None
      case Some(payload) =>
        if B64uDecode(parts[1]) == Some(Hmac(l, secret, payload)) then Some(payload) else None
  }

  /** A signed value comes back under any secret with the same signature, and under no other. */
  lemma UnsignSigned(l: Library, secret: bytes, other: bytes, payload: bytes)
    ensures Unsign(l, other, Sign(l, secret, payload))
      == if Hmac(l, other, payload) == Hmac(l, secret, payload) then Some(payload) else None
  {
    hide B64u, B64uDecode;
    B64uRoundTrip(payload);
    B64uRoundTrip(Hmac(l, secret, payload));
    SplitFront(B64u(payload), '.', B64u(Hmac(l, secret, payload)), 1);
  }

  /** The value is a payload's text, the first dot in it, and a text of exactly that payload's signature. */
  ghost predicate Carries(l: Library, secret: bytes, value: string, payload: bytes) {
    exists front, rest :: Parts(value, front, rest)
      && B64uDecode(front) == Some(payload) && B64uDecode(rest) == Some(Hmac(l, secret, payload))
  }

  ghost predicate Parts(value: string, front: string, rest: string) {
    value == front + "." + rest && '.' !in front
  }

  /** Of all values, signed here or made up, exactly those that carry a payload's signature yield it. */
  lemma UnsignMeans(l: Library, secret: bytes, value: string, payload: bytes)
    ensures Unsign(l, secret, value) == Some(payload) <==> Carries(l, secret, value, payload)
  {
    hide B64uDecode;
    SplitOnce(value, '.');
    if Carries(l, secret, value, payload) {
      var front, rest :| Parts(value, front, rest)
        && B64uDecode(front) == Some(payload) && B64uDecode(rest) == Some(Hmac(l, secret, payload));
      SplitFront(front, '.', rest, 1);
      SplitNowhere(rest, '.');
    }
    if Unsign(l, secret, value) == Some(payload) {
      var parts := Split(value, '.', 1);
      assert Parts(value, parts[0], parts[1]);
    }
  }

  // ------------------------------------------------------------- sessions ----

  /** The remaining Python exceptions, which leave the call. */
  datatype Raised = ValueError | TypeError

  datatype Session = Session(principalId: Json, scopes: set<Json>, sub: Json)

  function SessionFields(l: Library, principal: string, scopes: set<string>, sub: string, exp: int): map<string, Json> {
    map["pid" := Text(principal), "scopes" := List(Texts(Sorted(l, scopes))), "sub" := Text(sub), "exp" := Number(exp)]
  }

  function Texts(xs: seq<string>): (r: seq<Json>)
    ensures |r| == |xs| && forall i :: 0 <= i < |xs| ==> r[i] == Text(xs[i])
  {
    seq(|xs|, i requires 0 <= i < |xs| => Text(xs[i]))
  }

  function Issue(l: Library, secret: bytes, ttl: int, principal: string, scopes: set<string>, sub: string, now: int)
    : string
  {
    Sign(l, secret, Dumps(l, SessionFields(l, principal, scopes, sub, now + ttl)))
  }

  function Field(fields: map<string, Json>, k: string): Json {
    if k in fields then fields[k] else Null
  }

  /** Python's int(): truncation of reals, parsing of text. */
  function ToInt(l: Library, j: Json): Result<int, Raised> {
    match j
    case Bool(b) => Ok(if b then 1 else 0)
    case Number(n) => Ok(n)
    case Real(r) => Ok(if r >= 0.0 then r.Floor else -(-r).Floor)
    case Text(t) => (match ParseInt(l, t) case None => Err(ValueError) case Some(n) => Ok(n))
    case _ => Err(TypeError)
  }

  /** Reals are truncated toward zero. */
  lemma RealsTruncate(l: Library, r: real)
    ensures ToInt(l, Real(r)).Ok?
    ensures var n := ToInt(l, Real(r)).value as real;
      if r >= 0.0 then 0.0 <= n <= r < n + 1.0 else n - 1.0 < r <= n <= 0.0
  {}

  /** Python's set(): of a list's items, a text's characters, a dictionary's keys. */
  function ToSet(j: Json): Result<set<Json>, Raised> {
    match j
    case List(items) =>
      if exists x :: x in items && (x.List? || x.Object?) then Err(TypeError) else Ok(set x | x in items)
    case Text(t) => Ok(set i | 0 <= i < |t| :: Text([t[i]]))
    case Object(fields) => Ok(set k | k in fields :: Text(k))
    case _ => Err(TypeError)
  }

  /** A list is made a set iff no item is a list or a dictionary; then it has just the items. */
  lemma ListsToSets(items: seq<Json>)
    ensures ToSet(List(items)).Ok? <==> forall i :: 0 <= i < |items| ==> !items[i].List? && !items[i].Object?
    ensures ToSet(List(items)).Ok? ==> forall x :: x in ToSet(List(items)).value <==> x in items
  {
    assert forall i :: 0 <= i < |items| ==> items[i] in items;
  }

  function Verify(l: Library, secret: bytes, value: string, now: int): Result<Option<Session>, Raised> {
    match Unsign(l, secret, value)
    case None => Ok(None)
    case Some(payload) =>
      match Loads(l, payload)
      case None => Ok(None)
      case Some(doc) =>
        if !doc.Object? || "exp" !in doc.fields then Ok(None)
        else match ToInt(l, doc.fields["exp"])
          case Err(e) => Err(e)
          case Ok(exp) =>
            if now >= exp then Ok(None)
            else
              var scopes := if "scopes" in doc.fields then ToSet(doc.fields["scopes"]) else Ok({});
              if scopes.Err? then Err(scopes.error)
              else Ok(Some(Session(Field(doc.fields, "pid"), scopes.value, Field(doc.fields, "sub"))))
  }

  /** What the payload must say for this session at this time. */
  ghost predicate Grants(l: Library, payload: bytes, session: Session, now: int) {
    var doc := Loads(l, payload);
    && doc.Some? && doc.value.Object? && "exp" in doc.value.fields
    && ToInt(l, doc.value.fields["exp"]).Ok? && now < ToInt(l, doc.value.fields["exp"]).value
    && session.principalId == Field(doc.value.fields, "pid") && session.sub == Field(doc.value.fields, "sub")
    && (if "scopes" in doc.value.fields then ToSet(doc.value.fields["scopes"]) == Ok(session.scopes)
        else session.scopes == {})
  }

  /**
    No session without the secret: whatever value comes in, it verifies to a session
    exactly if it carries the signature of a payload that grants it.
   */
  lemma VerifiedIsSigned(l: Library, secret: bytes, value: string, session: Session, now: int)
    ensures Verify(l, secret, value, now) == Ok(Some(session))
      <==> exists payload :: Carries(l, secret, value, payload) && Grants(l, payload, session, now)
  {
    hide Unsign, Carries, ToInt, ToSet;
    forall payload
      ensures Unsign(l, secret, value) == Some(payload) <==> Carries(l, secret, value, payload)
    {
      UnsignMeans(l, secret, value, payload);
    }
  }

  /** An issued session verifies to what it was issued for, exactly until its lifetime is over. */
  lemma VerifyIssued(l: Library, secret: bytes, ttl: int, principal: string, scopes: set<string>,
                     sub: string, issued: int, now: int)
    requires Sorts(l) && Reads(l, SessionFields(l, principal, scopes, sub, issued + ttl))
    ensures Verify(l, secret, Issue(l, secret, ttl, principal, scopes, sub, issued), now)
      == Ok(if now < issued + ttl then Some(Session(Text(principal), set s | s in scopes :: Text(s), Text(sub)))
            else None)
  {
    hide Sign, Unsign, ToSet, Texts;
    var fields := SessionFields(l, principal, scopes, sub, issued + ttl);
    UnsignSigned(l, secret, secret, Dumps(l, fields));
    TextsOfSorted(l, scopes);
  }

  lemma TextsOfSorted(l: Library, scopes: set<string>)
    requires Sorts(l)
    ensures ToSet(List(Texts(Sorted(l, scopes)))) == Ok(set s | s in scopes :: Text(s))
  {
    var names := Sorted(l, scopes);
    var items := Texts(names);
    var a, b := (set x | x in items), (set s | s in scopes :: Text(s));
    forall x | x in a
      ensures x in b
    {
      var i :| 0 <= i < |items| && items[i] == x;
      assert names[i] in scopes;
    }
    forall x | x in b
      ensures x in a
    {
      var i :| 0 <= i < |names| && names[i] == x.text;
      assert items[i] == x;
    }
    assert a == b;
  }

  // ------------------------------------------- login transactions, callers ----

  const TX_SECONDS: int := 600

  function TxFields(data: map<string, Json>, now: int): map<string, Json> {
    data["exp" := Number(now + TX_SECONDS)]
  }

  function SignTx(l: Library, secret: bytes, data: map<string, Json>, now: int): string {
    Sign(l, secret, Dumps(l, TxFields(data, now)))
  }

  function VerifyTx(l: Library, secret: bytes, value: string, now: int): Result<Option<map<string, Json>>, Raised> {
    match Unsign(l, secret, value)
    case None => Ok(None)
    case Some(payload) =>
      match Loads(l, payload)
      case None => Ok(None)
      case Some(doc) =>
        if !doc.Object? then Ok(None)
        else match ToInt(l, if "exp" in doc.fields then doc.fields["exp"] else Number(0))
          case Err(e) => Err(e)
          case Ok(exp) => Ok(if now >= exp then None else Some(doc.fields))
  }

  /** The state of a login transaction survives the round trip for ten minutes. */
  lemma VerifySignedTx(l: Library, secret: bytes, data: map<string, Json>, signed: int, now: int)
    requires Reads(l, TxFields(data, signed))
    ensures VerifyTx(l, secret, SignTx(l, secret, data, signed), now)
      == Ok(if now < signed + 600 then Some(TxFields(data, signed)) else None)
  {
    hide Sign, Unsign;
    UnsignSigned(l, secret, secret, Dumps(l, TxFields(data, signed)));
  }

  /** Nor login data without the secret. */
  lemma VerifiedTxIsSigned(l: Library, secret: bytes, value: string, data: map<string, Json>, now: int)
    ensures VerifyTx(l, secret, value, now) == Ok(Some(data))
      <==> exists payload :: Carries(l, secret, value, payload) && TxGrants(l, payload, data, now)
  {
    hide Unsign, Carries;
    forall payload
      ensures Unsign(l, secret, value) == Some(payload) <==> Carries(l, secret, value, payload)
    {
      UnsignMeans(l, secret, value, payload);
    }
    if VerifyTx(l, secret, value, now) == Ok(Some(data)) {
      assert TxGrants(l, Unsign(l, secret, value).value, data, now);
    }
  }

  /** What the payload must say for this login data; without "exp" it has expired long ago. */
  ghost predicate TxGrants(l: Library, payload: bytes, data: map<string, Json>, now: int) {
    && Loads(l, payload) == Some(Object(data))
    && (if "exp" in data then ToInt(l, data["exp"]).Ok? && now < ToInt(l, data["exp"]).value else now < 0)
  }

  predicate Truthy(j: Json) {
    match j
    case Null => false
    case Bool(b) => b
    case Number(n) => n != 0
    case Real(r) => r != 0.0
    case Text(t) => t != ""
    case List(items) => items != []
    case Object(fields) => fields != map[]
  }

  /** The session a request's cookie stands for: one that verifies and names a principal. */
  function CookieSession(l: Library, secret: bytes, cookie: string, now: int): Result<Option<Session>, Raised> {
    if cookie == "" then Ok(None)
    else match Verify(l, secret, cookie, now)
      case Err(e) => Err(e)
      case Ok(None) => Ok(None)
      case Ok(Some(session)) => Ok(if Truthy(session.principalId) then Some(session) else None)
  }

  /** Both kinds of value share the secret, but a transaction without a "pid" is never a session. */
  lemma TxIsNoSession(l: Library, secret: bytes, data: map<string, Json>, signed: int, now: int)
    requires Reads(l, TxFields(data, signed)) && "pid" !in data
    ensures match CookieSession(l, secret, SignTx(l, secret, data, signed), now)
            case Ok(session) => session == None
            case Err(e) => e == TypeError
  {
    hide Sign, Unsign;
    UnsignSigned(l, secret, secret, Dumps(l, TxFields(data, signed)));
  }

  // ------------------------------------------------- the laws can be met ----

  ghost function Enumerated(s: set<string>): (r: seq<string>)
    ensures forall x :: x in r <==> x in s
  {
    if s == {} then []
    else
      var x :| x in s;
      [x] + Enumerated(s - {x})
  }

  /** Where a document first stands, or the number of documents. */
  ghost function Position(documents: seq<map<string, Json>>, d: map<string, Json>): (i: nat)
    ensures i <= |documents| && (i < |documents| ==> documents[i] == d) && (d in documents ==> i < |documents|)
  {
    if documents == [] || documents[0] == d then 0 else 1 + Position(documents[1..], d)
  }

  /** For any documents there is a library that sorts, and that reads them all back. */
  lemma LawfulExists(documents: seq<map<string, Json>>) returns (l: Library)
    ensures Sorts(l) && forall d :: d in documents ==> Reads(l, d)
    ensures forall s :: Sorted(l, s) == Enumerated(s)
  {
    l := Library((secret, message) => [],
                 d => seq(Position(documents, d), _ => 0),
                 b => if |b| < |documents| then Some(Object(documents[|b|])) else None,
                 s => Enumerated(s),
                 s => None);
  }
}

/**
  Bearer tokens and the principals they authenticate as: minting, the lookup narrowed by
  the indexed id prefix, and what runs of calls keep.
 */
module Tokens {
  import opened Bytes
  import opened Wrappers
  import opened Strings

  datatype TokenRow = TokenRow(id: string, tokenHash: bytes, scopes: string, revoked: bool,
                               expiresAt: Option<int>, principalId: Option<string>)

  datatype Principal = Principal(ptype: string, displayName: string, disabled: bool)

  /** The tables of tokens and principals. */
  datatype Directory = Directory(tokens: seq<TokenRow>, principals: map<string, Principal>)

  /** SHA-384 of a text, and Python's sorted(). */
  datatype Library = Library(hasher: string -> bytes, sorter: set<string> -> seq<string>)

  function Hash(l: Library, s: string): bytes { l.hasher(s) }
  function Sorted(l: Library, s: set<string>): seq<string> { l.sorter(s) }

  ghost predicate Sorts(l: Library) {
    forall s, x :: x in Sorted(l, s) <==> x in s
  }

  const ALL_SCOPES: set<string> := {"admin", "encrypt", "decrypt", "sign", "verify", "read", "manage"}
  const PRINCIPAL_TYPES: set<string> := {"service", "human"}

  const PREFIX: string := "pqkms_"

  /** The text handed to the client; the table keeps only its hash. */
  function FormatToken(tid: string, secret: string): string {
    PREFIX + Slice8(tid) + "_" + secret
  }

  function Slice8(s: string): string {
    if |s| <= 8 then s else s[..8]
  }

  // ------------------------------------------------------------- SQL LIKE ----

  /** How a database compares in LIKE: the folding of letters and the escape character, if any. */
  datatype Dialect = Dialect(folding: char -> char, escape: Option<char>)

  function Fold(d: Dialect, ch: char): char { d.folding(ch) }

  predicate Like(d: Dialect, pattern: string, text: string)
    decreases |pattern|, |text|
  {
    if pattern == [] then text == []
    else if d.escape == Some(pattern[0]) && |pattern| >= 2 then
      text != [] && Fold(d, pattern[1]) == Fold(d, text[0]) && Like(d, pattern[2..], text[1..])
    else if pattern[0] == '%' then
      Like(d, pattern[1..], text) || (text != [] && Like(d, pattern, text[1..]))
    else
      text != [] && (pattern[0] == '_' || Fold(d, pattern[0]) == Fold(d, text[0])) && Like(d, pattern[1..], text[1..])
  }

  /** The text of a uuid4: hexadecimal digits and hyphens. */
  predicate IsUuid(s: string) {
    |s| == 36 && forall i :: 0 <= i < |s| ==> '0' <= s[i] <= '9' || 'a' <= s[i] <= 'f' || s[i] == '-'
  }

  lemma {:induction false} LikeAnything(d: Dialect, text: string)
    requires d.escape != Some('%')
    ensures Like(d, "%", text)
  {
    assert "%"[1..] == [];
    if text != [] {
      LikeAnything(d, text[1..]);
    }
  }

  lemma {:induction false} LikeItsPrefix(d: Dialect, front: string, rest: string)
    requires d.escape.None? || d.escape == Some('\\')
    requires forall i :: 0 <= i < |front| ==> front[i] != '%' && front[i] != '\\'
    ensures Like(d, front + "%", front + rest)
  {
    if front == [] {
      assert front + "%" == "%" && front + rest == rest;
      LikeAnything(d, rest);
    } else {
      assert (front + "%")[1..] == front[1..] + "%" && (front + rest)[1..] == front[1..] + rest;
      LikeItsPrefix(d, front[1..], rest);
    }
  }

  // -------------------------------------------------------- authentication ----

  datatype Caller = Caller(principalId: Option<string>, displayName: Option<string>, scopes: set<string>)

  function Active(rows: seq<TokenRow>): seq<TokenRow> {
    if rows == [] then [] else (if rows[0].revoked then [] else [rows[0]]) + Active(rows[1..])
  }

  function Candidates(d: Dialect, rows: seq<TokenRow>, prefix: string): seq<TokenRow> {
    if rows == [] then []
    else
      (if !rows[0].revoked && Like(d, prefix + "%", rows[0].id) then [rows[0]] else [])
      + Candidates(d, rows[1..], prefix)
  }

  function FirstMatch(rows: seq<TokenRow>, h: bytes): Option<TokenRow> {
    if rows == [] then None else if rows[0].tokenHash == h then Some(rows[0]) else FirstMatch(rows[1..], h)
  }

  function ScopesOf(row: TokenRow): set<string> {
    set s | s in Split(row.scopes, ',', |row.scopes|)
  }

  /** The verdict on the row whose hash matched; a row without its principal counts as not disabled. */
  function Judge(dir: Directory, row: TokenRow, now: int): Option<Caller> {
    if row.expiresAt.Some? && now >= row.expiresAt.value then None
    else if row.principalId.Some? && row.principalId.value in dir.principals then
      var p := dir.principals[row.principalId.value];
      if p.disabled then None else Some(Caller(row.principalId, Some(p.displayName), ScopesOf(row)))
    else Some(Caller(row.principalId, None, ScopesOf(row)))
  }

  /** A matching row is turned down exactly if it has expired or its principal is there and disabled. */
  lemma JudgeMeans(dir: Directory, row: TokenRow, now: int)
    ensures Judge(dir, row, now).None? <==>
      || (row.expiresAt.Some? && row.expiresAt.value <= now)
      || (row.principalId.Some? && row.principalId.value in dir.principals
          && dir.principals[row.principalId.value].disabled)
    ensures Judge(dir, row, now).Some? ==> Judge(dir, row, now).value.principalId == row.principalId
  {
    hide ScopesOf;
  }

  /** The id prefix of a well-formed token. */
  function IdPrefix(raw: string): Option<string> {
    if !(PREFIX <= raw) then None
    else
      var parts := Split(raw, '_', 2);
      if |parts| != 3 || parts[1] == "" || parts[2] == "" then None else Some(parts[1])
  }

  function Authenticated(d: Dialect, l: Library, dir: Directory, raw: string, now: int): Option<Caller> {
    match IdPrefix(raw)
    case None => None
    case Some(prefix) =>
      match FirstMatch(Candidates(d, dir.tokens, prefix), Hash(l, raw))
      case None => None
      case Some(row) => Judge(dir, row, now)
  }

  /** What the narrowed lookup stands for: the first active token with this hash, whatever the text looks like. */
  function FullScan(l: Library, dir: Directory, raw: string, now: int): Option<Caller> {
    match FirstMatch(Active(dir.tokens), Hash(l, raw))
    case None => None
    case Some(row) => Judge(dir, row, now)
  }

  // ---------------------------------------------------------------- calls ----

  datatype AuthError = BadType | UnknownScopes | BadTtl | UnknownPrincipal | IntegrityError

  function InsertPrincipal(dir: Directory, pid: string, p: Principal): Result<Directory, AuthError> {
    if pid in dir.principals then Err(IntegrityError) else Ok(dir.(principals := dir.principals[pid := p]))
  }

  function InsertToken(dir: Directory, row: TokenRow): Result<Directory, AuthError> {
    if exists r :: r in dir.tokens && r.id == row.id then Err(IntegrityError)
    else Ok(dir.(tokens := dir.tokens + [row]))
  }

  /** UPDATE api_tokens SET revoked = 1 for one token, or for the tokens of one principal. */
  function RevokeId(rows: seq<TokenRow>, tid: string): (r: seq<TokenRow>)
    ensures |r| == |rows|
    ensures forall i :: 0 <= i < |r| ==> r[i] == rows[i].(revoked := rows[i].revoked || rows[i].id == tid)
  {
    if rows == [] then []
    else [if rows[0].id == tid then rows[0].(revoked := true) else rows[0]] + RevokeId(rows[1..], tid)
  }

  function RevokePrincipal(rows: seq<TokenRow>, pid: string): (r: seq<TokenRow>)
    ensures |r| == |rows|
    ensures forall i :: 0 <= i < |r| ==>
      r[i] == rows[i].(revoked := rows[i].revoked || rows[i].principalId == Some(pid))
  {
    if rows == [] then []
    else
      [if rows[0].principalId == Some(pid) then rows[0].(revoked := true) else rows[0]]
      + RevokePrincipal(rows[1..], pid)
  }

  /** A request for a token: for an existing principal, or for a new service principal. */
  datatype Mint = Mint(tid: string, secret: string, name: string, scopes: set<string>, ttl: Option<int>,
                       principal: Option<string>, newPrincipal: string)

  function RowFor(l: Library, m: Mint, pid: string, now: int): TokenRow {
    TokenRow(m.tid, Hash(l, FormatToken(m.tid, m.secret)), Join(Sorted(l, m.scopes), ','), false,
             if m.ttl.None? then None else Some(now + m.ttl.value), Some(pid))
  }

  /** The tables after a request, and its answer: the token's text and its principal. */
  function CreateToken(l: Library, dir: Directory, m: Mint, now: int)
    : (Directory, Result<(string, string), AuthError>)
  {
    if !(m.scopes <= ALL_SCOPES) then (dir, Err(UnknownScopes))
    else if m.ttl.Some? && m.ttl.value <= 0 then (dir, Err(BadTtl))
    else if m.principal.Some? && m.principal.value !in dir.principals then (dir, Err(UnknownPrincipal))
    else
      var pid := m.principal.GetOr(m.newPrincipal);
      var made := if m.principal.Some? then Ok(dir) else InsertPrincipal(dir, pid, Principal("service", m.name, false));
      match made
      case Err(e) => (dir, Err(e))
      case Ok(dir1) =>
        match InsertToken(dir1, RowFor(l, m, pid, now))
        case Err(e) => (dir1, Err(e))
        case Ok(dir2) => (dir2, Ok((FormatToken(m.tid, m.secret), pid)))
  }

  function SetDisabled(dir: Directory, pid: string, disabled: bool): (Directory, bool) {
    if pid in dir.principals then
      (dir.(principals := dir.principals[pid := dir.principals[pid].(disabled := disabled)]), true)
    else (dir, false)
  }

  function DeletePrincipal(dir: Directory, pid: string): (Directory, bool) {
    if pid in dir.principals then (Directory(RevokePrincipal(dir.tokens, pid), dir.principals - {pid}), true)
    else (dir, false)
  }

  /** Nothing stands in the way of a token: known scopes, a positive lifetime if any, its principal, a free id. */
  ghost predicate Mintable(dir: Directory, m: Mint) {
    && m.scopes <= ALL_SCOPES && (m.ttl.None? || m.ttl.value > 0)
    && (if m.principal.Some? then m.principal.value in dir.principals else m.newPrincipal !in dir.principals)
    && forall x :: x in dir.tokens ==> x.id != m.tid
  }

  class TokenAuth {
    var tokens: seq<TokenRow>
    var principals: map<string, Principal>

    function Tables(): Directory
      reads this
    {
      Directory(tokens, principals)
    }

    constructor ()
      ensures Tables() == Directory([], map[])
    {
      tokens, principals := [], map[];
    }

    method NewPrincipal(pid: string, displayName: string, ptype: string) returns (r: Result<(), AuthError>)
      modifies this`principals
      ensures ptype !in PRINCIPAL_TYPES ==> r == Err(BadType) && Tables() == old(Tables())
      ensures ptype in PRINCIPAL_TYPES ==>
        match InsertPrincipal(old(Tables()), pid, Principal(ptype, displayName, false))
        case Ok(dir) => r.Ok? && Tables() == dir
        case Err(e) => r == Err(e) && Tables() == old(Tables())
    {
      if ptype !in PRINCIPAL_TYPES {
        return Err(BadType);
      }
      if pid in principals {
        return Err(IntegrityError);
      }
      principals := principals[pid := Principal(ptype, displayName, false)];
      return Ok(());
    }

    method NewToken(l: Library, m: Mint, now: int) returns (r: Result<(string, string), AuthError>)
      modifies this
      ensures (Tables(), r) == CreateToken(l, old(Tables()), m, now)
      ensures r.Ok? ==> m.scopes <= ALL_SCOPES && (m.ttl.None? || m.ttl.value > 0)
      ensures r.Ok? && m.principal.Some? ==> old(m.principal.value in principals) && principals == old(principals)
      ensures r.Ok? ==> r.value == (FormatToken(m.tid, m.secret), m.principal.GetOr(m.newPrincipal))
      ensures r.Err? ==> tokens == old(tokens)
      ensures r.Ok? <==> Mintable(old(Tables()), m)
    {
      if !(m.scopes <= ALL_SCOPES) {
        return Err(UnknownScopes);
      }
      if m.ttl.Some? && m.ttl.value <= 0 {
        return Err(BadTtl);
      }
      var pid := m.newPrincipal;
      if m.principal.None? {
        var made := NewPrincipal(pid, m.name, "service");
        if made.Err? {
          return Err(made.error);
        }
      } else if m.principal.value !in principals {
        return Err(UnknownPrincipal);
      } else {
        pid := m.principal.value;
      }
      if exists k | 0 <= k < |tokens| :: tokens[k].id == m.tid {
        return Err(IntegrityError);
      }
      tokens := tokens + [RowFor(l, m, pid, now)];
      return Ok((FormatToken(m.tid, m.secret), pid));
    }

    method Revoke(tid: string)
      modifies this`tokens
      ensures tokens == RevokeId(old(tokens), tid)
    {
      tokens := RevokeId(tokens, tid);
    }

    method SetPrincipalDisabled(pid: string, disabled: bool) returns (found: bool)
      modifies this`principals
      ensures (Tables(), found) == SetDisabled(old(Tables()), pid, disabled)
    {
      if pid !in principals {
        return false;
      }
      principals := principals[pid := principals[pid].(disabled := disabled)];
      return true;
    }

    method Delete(pid: string) returns (found: bool)
      modifies this
      ensures (Tables(), found) == DeletePrincipal(old(Tables()), pid)
    {
      if pid !in principals {
        return false;
      }
      tokens := RevokePrincipal(tokens, pid);
      principals := principals - {pid};
      return true;
    }

    /** The lookup narrowed by the indexed prefix; the first row whose hash matches decides. */
    method Authenticate(d: Dialect, l: Library, raw: string, now: int) returns (caller: Option<Caller>)
      ensures caller == Authenticated(d, l, Tables(), raw, now)
    {
      if !(PREFIX <= raw) {
        return None;
      }
      var parts := Split(raw, '_', 2);
      if |parts| != 3 || parts[1] == "" || parts[2] == "" {
        return None;
      }
      var h := Hash(l, raw);
      var rows := Candidates(d, tokens, parts[1]);
      for i := 0 to |rows|
        invariant FirstMatch(rows, h) == FirstMatch(rows[i..], h)
      {
        var row := rows[i];
        if row.tokenHash != h {
          continue;
        }
        if row.expiresAt.Some? && now >= row.expiresAt.value {
          return None;
        }
        if row.principalId.Some? && row.principalId.value in principals {
          var p := principals[row.principalId.value];
          if p.disabled {
            return None;
          }
          return Some(Caller(row.principalId, Some(p.displayName), ScopesOf(row)));
        }
        return Some(Caller(row.principalId, None, ScopesOf(row)));
      }
      return None;
    }
  }

  // ----------------------------------------------------------------- runs ----

  /** The tables, and the history: principal ids ever used, and the texts of the tokens minted. */
  datatype State = State(dir: Directory, born: set<string>, minted: map<string, string>)

  const START: State := State(Directory([], map[]), {}, map[])

  datatype Event =
    | AddPrincipal(pid: string, displayName: string, ptype: string)
    | AddToken(m: Mint, now: int)
    | RevokeToken(tid: string)
    | Disable(pid: string, disabled: bool)
    | Remove(pid: string)

  /** Ids come from uuid4 and secrets from token_urlsafe: neither ever repeats. */
  predicate Possible(s: State, e: Event) {
    match e
    case AddPrincipal(pid, _, _) => pid !in s.born
    case AddToken(m, _) =>
      && IsUuid(m.tid) && m.tid !in s.minted && m.secret != ""
      && FormatToken(m.tid, m.secret) !in s.minted.Values
      && (m.principal.None? ==> m.newPrincipal !in s.born)
    case _ => true
  }

  function Step(l: Library, s: State, e: Event): State {
    if !Possible(s, e) then s
    else match e
      case AddPrincipal(pid, displayName, ptype) =>
        var made := InsertPrincipal(s.dir, pid, Principal(ptype, displayName, false));
        if ptype !in PRINCIPAL_TYPES || made.Err? then s else s.(dir := made.value, born := s.born + {pid})
      case AddToken(m, now) =>
        var (dir, answer) := CreateToken(l, s.dir, m, now);
        State(dir, s.born + dir.principals.Keys,
              if answer.Ok? then s.minted[m.tid := answer.value.0] else s.minted)
      case RevokeToken(tid) => s.(dir := s.dir.(tokens := RevokeId(s.dir.tokens, tid)))
      case Disable(pid, disabled) => s.(dir := SetDisabled(s.dir, pid, disabled).0)
      case Remove(pid) => s.(dir := DeletePrincipal(s.dir, pid).0)
  }

  function Run(l: Library, events: seq<Event>): State {
    if events == [] then START else Step(l, Run(l, events[..|events| - 1]), events[|events| - 1])
  }

  /** Every row was minted here, and a row that is not revoked has its principal. */
  ghost predicate RowOk(l: Library, s: State, r: TokenRow) {
    && IsUuid(r.id) && r.id in s.minted && r.tokenHash == Hash(l, s.minted[r.id])
    && (exists secret :: secret != "" && s.minted[r.id] == FormatToken(r.id, secret))
    && (!r.revoked ==> r.principalId.Some? && r.principalId.value in s.dir.principals)
  }

  ghost predicate Inv(l: Library, s: State) {
    && s.dir.principals.Keys <= s.born
    && (forall i :: 0 <= i < |s.dir.tokens| ==> RowOk(l, s, s.dir.tokens[i]))
    && (forall i, j :: 0 <= i < j < |s.dir.tokens| ==> s.dir.tokens[i].id != s.dir.tokens[j].id)
    && (forall a, b :: a in s.minted && b in s.minted && s.minted[a] == s.minted[b] ==> a == b)
  }

  lemma StepKeepsInv(l: Library, s: State, e: Event)
    requires Inv(l, s)
    ensures Inv(l, Step(l, s, e)) && s.born <= Step(l, s, e).born
    ensures forall pid :: pid in s.born && pid in Step(l, s, e).dir.principals ==> pid in s.dir.principals
  {
    hide IsUuid, FormatToken;
    if e.AddToken? {
      MintKeepsInv(l, s, e);
    } else {
      var s' := Step(l, s, e);
      forall i | 0 <= i < |s'.dir.tokens|
        ensures RowOk(l, s', s'.dir.tokens[i])
      {
        assert RowOk(l, s, s.dir.tokens[i]);
      }
    }
  }

  /** At most one row more, for a principal that exists, and at most the new principal more. */
  lemma MintEffect(l: Library, dir: Directory, m: Mint, now: int)
    ensures var (dir', answer) := CreateToken(l, dir, m, now);
      && (dir'.principals == dir.principals
          || (m.principal.None?
              && dir'.principals == dir.principals[m.newPrincipal := Principal("service", m.name, false)]))
      && (answer.Err? ==> dir'.tokens == dir.tokens)
      && (answer.Ok? ==>
            && answer.value.0 == FormatToken(m.tid, m.secret) && answer.value.1 in dir'.principals
            && dir'.tokens == dir.tokens + [RowFor(l, m, answer.value.1, now)]
            && forall r :: r in dir.tokens ==> r.id != m.tid)
  {
    hide FormatToken, Join;
  }

  lemma MintKeepsInv(l: Library, s: State, e: Event)
    requires Inv(l, s) && e.AddToken?
    ensures Inv(l, Step(l, s, e)) && s.born <= Step(l, s, e).born
    ensures forall pid :: pid in s.born && pid in Step(l, s, e).dir.principals ==> pid in s.dir.principals
  {
    hide IsUuid, FormatToken, CreateToken, Join;
    MintEffect(l, s.dir, e.m, e.now);
    var s' := Step(l, s, e);
    var n := |s.dir.tokens|;
    if Possible(s, e) {
      var (dir, answer) := CreateToken(l, s.dir, e.m, e.now);
      assert s' == State(dir, s.born + dir.principals.Keys,
                         if answer.Ok? then s.minted[e.m.tid := answer.value.0] else s.minted);
      forall i | 0 <= i < |dir.tokens|
        ensures RowOk(l, s', dir.tokens[i])
      {
        if i < n {
          assert RowOk(l, s, s.dir.tokens[i]);
          assert dir.tokens[i] == s.dir.tokens[i];
        } else {
          assert dir.tokens[i] == RowFor(l, e.m, answer.value.1, e.now);
        }
      }
      if answer.Ok? {
        assert forall a :: a in s.minted ==> s.minted[a] != answer.value.0;
      }
      assert forall i :: 0 <= i < n ==> s.dir.tokens[i] in s.dir.tokens;
    }
  }

  lemma {:induction false} RunKeepsInv(l: Library, events: seq<Event>)
    ensures Inv(l, Run(l, events))
  {
    hide Inv, Step;
    if events == [] {
      EmptyInv(l);
    } else {
      RunKeepsInv(l, events[..|events| - 1]);
      StepKeepsInv(l, Run(l, events[..|events| - 1]), events[|events| - 1]);
    }
  }

  lemma EmptyInv(l: Library)
    ensures Inv(l, START)
  {}

  // --------------------------------------------------- the lookup is exact ----

  /** The text collides with no other minted token. */
  ghost predicate NoCollision(l: Library, s: State, raw: string) {
    forall tid :: tid in s.minted && Hash(l, s.minted[tid]) == Hash(l, raw) ==> s.minted[tid] == raw
  }

  ghost predicate Supported(d: Dialect) {
    d.escape.None? || d.escape == Some('\\')
  }

  lemma UuidPrefix(tid: string)
    requires IsUuid(tid)
    ensures |tid| >= 8 && Slice8(tid) == tid[..8] && Slice8(tid) + tid[8..] == tid
    ensures '_' !in Slice8(tid) && forall i :: 0 <= i < 8 ==> Slice8(tid)[i] != '%' && Slice8(tid)[i] != '\\'
  {
    assert forall i :: 0 <= i < 8 ==> Slice8(tid)[i] == tid[i];
  }

  lemma FormattedPrefix(tid: string, secret: string)
    requires IsUuid(tid) && secret != ""
    ensures FormatToken(tid, secret) == "pqkms_" + tid[..8] + "_" + secret
    ensures IdPrefix(FormatToken(tid, secret)) == Some(tid[..8])
  {
    hide IsUuid, Slice8, Split;
    UuidPrefix(tid);
    var raw := FormatToken(tid, secret);
    var front := PREFIX[..5];
    var rest := Slice8(tid) + ['_'] + secret;
    NoBar();
    assert raw == front + ['_'] + rest;
    SplitFront(front, '_', rest, 2);
    SplitFront(Slice8(tid), '_', secret, 1);
    SplitNowhere(secret, '_');
  }

  lemma NoBar()
    ensures |PREFIX| == 6 && PREFIX == PREFIX[..5] + ['_'] && '_' !in PREFIX[..5]
  {}

  lemma {:induction false} NarrowingKeepsMatch(d: Dialect, rows: seq<TokenRow>, prefix: string, h: bytes)
    requires forall i :: 0 <= i < |rows| && !rows[i].revoked && rows[i].tokenHash == h ==>
      Like(d, prefix + "%", rows[i].id)
    ensures FirstMatch(Candidates(d, rows, prefix), h) == FirstMatch(Active(rows), h)
  {
    hide Like;
    if rows != [] {
      var r, rest := rows[0], rows[1..];
      NarrowingKeepsMatch(d, rest, prefix, h);
      FirstMatchCons(r, Candidates(d, rest, prefix), h);
      FirstMatchCons(r, Active(rest), h);
      assert [] + Candidates(d, rest, prefix) == Candidates(d, rest, prefix);
      assert [] + Active(rest) == Active(rest);
    }
  }

  lemma FirstMatchCons(r: TokenRow, rows: seq<TokenRow>, h: bytes)
    ensures FirstMatch([r] + rows, h) == if r.tokenHash == h then Some(r) else FirstMatch(rows, h)
  {
    assert ([r] + rows)[1..] == rows;
  }

  lemma {:induction false} MatchIsActive(rows: seq<TokenRow>, h: bytes) returns (i: nat)
    requires FirstMatch(Active(rows), h).Some?
    ensures i < |rows| && rows[i] == FirstMatch(Active(rows), h).value && !rows[i].revoked && rows[i].tokenHash == h
  {
    var r, rest := rows[0], rows[1..];
    FirstMatchCons(r, Active(rest), h);
    assert [] + Active(rest) == Active(rest);
    if !r.revoked && r.tokenHash == h {
      i := 0;
    } else {
      i := MatchIsActive(rest, h);
      i := i + 1;
    }
  }

  /** Whatever text comes in, the narrowed lookup answers as a scan of all active tokens would. */
  lemma LookupIsFullScan(d: Dialect, l: Library, s: State, raw: string, now: int)
    requires Inv(l, s) && Supported(d) && NoCollision(l, s, raw)
    ensures Authenticated(d, l, s.dir, raw, now) == FullScan(l, s.dir, raw, now)
  {
    hide Like, FormatToken, IdPrefix, IsUuid, Slice8, Judge, Candidates, Active, FirstMatch;
    var rows, h := s.dir.tokens, Hash(l, raw);
    forall i | 0 <= i < |rows| && !rows[i].revoked && rows[i].tokenHash == h
      ensures IdPrefix(raw).Some? && Like(d, IdPrefix(raw).value + "%", rows[i].id)
    {
      var r := rows[i];
      assert RowOk(l, s, r);
      var secret :| secret != "" && s.minted[r.id] == FormatToken(r.id, secret);
      FormattedPrefix(r.id, secret);
      UuidPrefix(r.id);
      LikeItsPrefix(d, Slice8(r.id), r.id[8..]);
    }
    if IdPrefix(raw).Some? {
      NarrowingKeepsMatch(d, rows, IdPrefix(raw).value, h);
    } else if FirstMatch(Active(rows), h).Some? {
      var i := MatchIsActive(rows, h);
    }
  }

  // ------------------------------------------------------ who gets through ----

  /** The text of an active, unexpired token whose principal is not disabled. */
  ghost predicate Usable(s: State, r: TokenRow, raw: string, now: int) {
    && r in s.dir.tokens && !r.revoked && r.id in s.minted && s.minted[r.id] == raw
    && (r.expiresAt.None? || now < r.expiresAt.value)
    && r.principalId.Some? && r.principalId.value in s.dir.principals && !s.dir.principals[r.principalId.value].disabled
  }

  /**
    Whoever authenticates presented a usable token, and is its existing, enabled
    principal with the token's scopes.
   */
  lemma AuthenticatedIsUsable(d: Dialect, l: Library, s: State, raw: string, now: int) returns (r: TokenRow)
    requires Inv(l, s) && Supported(d) && NoCollision(l, s, raw)
    requires Authenticated(d, l, s.dir, raw, now).Some?
    ensures Usable(s, r, raw, now)
    ensures var caller := Authenticated(d, l, s.dir, raw, now).value;
      caller.principalId == r.principalId && caller.scopes == ScopesOf(r)
  {
    hide IsUuid, FormatToken, Authenticated, ScopesOf, Active, FirstMatch;
    LookupIsFullScan(d, l, s, raw, now);
    var i := MatchIsActive(s.dir.tokens, Hash(l, raw));
    r := s.dir.tokens[i];
    assert RowOk(l, s, r);
  }

  lemma {:induction false} ActiveHasMatch(rows: seq<TokenRow>, i: nat, h: bytes)
    requires i < |rows| && !rows[i].revoked && rows[i].tokenHash == h
    ensures FirstMatch(Active(rows), h).Some?
  {
    var r, rest := rows[0], rows[1..];
    FirstMatchCons(r, Active(rest), h);
    assert [] + Active(rest) == Active(rest);
    if i > 0 {
      ActiveHasMatch(rest, i - 1, h);
    }
  }

  /** And every usable token gets its principal through, whatever else is in the table. */
  lemma UsableAuthenticates(d: Dialect, l: Library, s: State, r: TokenRow, raw: string, now: int)
    requires Inv(l, s) && Supported(d) && NoCollision(l, s, raw) && Usable(s, r, raw, now)
    ensures Authenticated(d, l, s.dir, raw, now)
      == Some(Caller(r.principalId, Some(s.dir.principals[r.principalId.value].displayName), ScopesOf(r)))
  {
    hide IsUuid, FormatToken, Authenticated, ScopesOf, Active, FirstMatch;
    LookupIsFullScan(d, l, s, raw, now);
    var i :| 0 <= i < |s.dir.tokens| && s.dir.tokens[i] == r;
    assert RowOk(l, s, r);
    ActiveHasMatch(s.dir.tokens, i, Hash(l, raw));
    var j := MatchIsActive(s.dir.tokens, Hash(l, raw));
    assert RowOk(l, s, s.dir.tokens[j]);
    assert s.dir.tokens[j].id == r.id;
  }

  /** Once deleted, a principal is authenticated by no text in any later state of the run. */
  lemma {:induction false} DeletedStaysOut(d: Dialect, l: Library, events: seq<Event>, more: seq<Event>,
                                           pid: string, raw: string, now: int)
    requires pid in Run(l, events).dir.principals && Supported(d)
    requires var s := Run(l, events + [Remove(pid)] + more); NoCollision(l, s, raw)
    ensures var s := Run(l, events + [Remove(pid)] + more);
      Authenticated(d, l, s.dir, raw, now).Some? ==> Authenticated(d, l, s.dir, raw, now).value.principalId != Some(pid)
  {
    hide Authenticated, Inv, NoCollision, Step;
    var s := Run(l, events + [Remove(pid)] + more);
    RunKeepsInv(l, events + [Remove(pid)] + more);
    GoneForGood(l, events, more, pid);
    if Authenticated(d, l, s.dir, raw, now).Some? {
      var r := AuthenticatedIsUsable(d, l, s, raw, now);
    }
  }

  lemma {:induction false} GoneForGood(l: Library, events: seq<Event>, more: seq<Event>, pid: string)
    requires pid in Run(l, events).dir.principals
    ensures var s := Run(l, events + [Remove(pid)] + more); pid in s.born && pid !in s.dir.principals
  {
    hide Inv, Step;
    var all := events + [Remove(pid)] + more;
    var before := Run(l, all[..|all| - 1]);
    RunKeepsInv(l, all[..|all| - 1]);
    if more == [] {
      assert all[..|all| - 1] == events;
      RemoveStep(l, before, pid);
    } else {
      assert all[..|all| - 1] == events + [Remove(pid)] + more[..|more| - 1];
      GoneForGood(l, events, more[..|more| - 1], pid);
      StepKeepsInv(l, before, all[|all| - 1]);
    }
  }

  lemma RemoveStep(l: Library, s: State, pid: string)
    requires Inv(l, s) && pid in s.dir.principals
    ensures var s' := Step(l, s, Remove(pid)); pid in s'.born && pid !in s'.dir.principals
  {
    hide RowOk;
  }

  // ---------------------------------------------------------- stale checks ----

  /**
    Minting for an existing principal reads the principal before it inserts the row. An
    insert that comes later keeps what runs keep exactly if the principal still exists.
   */
  lemma StaleMint(l: Library, s: State, m: Mint, pid: string, now: int)
    requires Inv(l, s) && Possible(s, AddToken(m, now)) && InsertToken(s.dir, RowFor(l, m, pid, now)).Ok?
    ensures var s' := State(InsertToken(s.dir, RowFor(l, m, pid, now)).value, s.born,
                            s.minted[m.tid := FormatToken(m.tid, m.secret)]);
      Inv(l, s') <==> pid in s.dir.principals
  {
    hide IsUuid, FormatToken, Join;
    var row := RowFor(l, m, pid, now);
    var n := |s.dir.tokens|;
    var dir := InsertToken(s.dir, row).value;
    var s' := State(dir, s.born, s.minted[m.tid := FormatToken(m.tid, m.secret)]);
    assert dir.tokens[n] == row;
    forall i | 0 <= i < n
      ensures RowOk(l, s', dir.tokens[i]) && dir.tokens[i].id != row.id
    {
      assert RowOk(l, s, s.dir.tokens[i]) && s.dir.tokens[i] in s.dir.tokens;
    }
    assert RowOk(l, s', row) <==> pid in s.dir.principals;
    assert forall a :: a in s.minted ==> s.minted[a] in s.minted.Values;
  }

  // --------------------------------------------------------------- scopes ----

  lemma ScopesHaveNoComma(s: string)
    requires s in ALL_SCOPES
    ensures ',' !in s
  {}

  /** A token carries the scopes it was minted with; an empty set comes back as the one scope "". */
  lemma MintedScopes(l: Library, m: Mint, pid: string, now: int)
    requires Sorts(l) && m.scopes <= ALL_SCOPES
    ensures ScopesOf(RowFor(l, m, pid, now)) == if m.scopes == {} then {""} else m.scopes
  {
    hide FormatToken, Split, Join, ALL_SCOPES;
    var parts := Sorted(l, m.scopes);
    forall i | 0 <= i < |parts|
      ensures ',' !in parts[i]
    {
      ScopesHaveNoComma(parts[i]);
    }
    JoinLength(parts, ',');
    SplitJoin(parts, ',', |Join(parts, ',')|);
    assert forall x :: x in m.scopes ==> x in parts;
    if parts != [] {
      assert parts[0] in m.scopes;
    }
  }

  // ------------------------------------------------- a token from its minting ----

  /** Whether a principal is disabled after some events: as the last of them about it says. */
  function DisabledAfter(events: seq<Event>, pid: string, before: bool): bool {
    if events == [] then before
    else
      var e := events[|events| - 1];
      if e.Disable? && e.pid == pid then e.disabled else DisabledAfter(events[..|events| - 1], pid, before)
  }

  /** The row of a token minted at `minted` and what became of it and of its principal since. */
  ghost predicate Tracks(l: Library, s: State, k: nat, m: Mint, pid: string, mintedAt: int, since: seq<Event>,
                         wasDisabled: bool) {
    && k < |s.dir.tokens| && s.dir.tokens[k].id == m.tid && s.dir.tokens[k].principalId == Some(pid)
    && s.dir.tokens[k].expiresAt == (if m.ttl.None? then None else Some(mintedAt + m.ttl.value))
    && s.dir.tokens[k].scopes == Join(Sorted(l, m.scopes), ',')
    && (s.dir.tokens[k].revoked <==> RevokeToken(m.tid) in since || Remove(pid) in since)
    && m.tid in s.minted && s.minted[m.tid] == FormatToken(m.tid, m.secret)
    && pid in s.born && (pid in s.dir.principals <==> Remove(pid) !in since)
    && (pid in s.dir.principals ==> s.dir.principals[pid].disabled == DisabledAfter(since, pid, wasDisabled))
  }

  lemma MintIsTracked(l: Library, s: State, m: Mint, now: int)
    requires Inv(l, s) && Possible(s, AddToken(m, now)) && CreateToken(l, s.dir, m, now).1.Ok?
    ensures var pid := CreateToken(l, s.dir, m, now).1.value.1;
      var wasDisabled := m.principal.Some? && m.principal.value in s.dir.principals
        && s.dir.principals[m.principal.value].disabled;
      && CreateToken(l, s.dir, m, now).1.value.0 == FormatToken(m.tid, m.secret)
      && pid == m.principal.GetOr(m.newPrincipal)
      && Tracks(l, Step(l, s, AddToken(m, now)), |s.dir.tokens|, m, pid, now, [], wasDisabled)
  {
    hide Inv, IsUuid, FormatToken, Join;
    MintEffect(l, s.dir, m, now);
  }

  /** Each event changes the row and the principal as the track says. */
  lemma TrackStep(l: Library, s: State, k: nat, m: Mint, pid: string, mintedAt: int, since: seq<Event>,
                  wasDisabled: bool, e: Event)
    requires Inv(l, s) && Tracks(l, s, k, m, pid, mintedAt, since, wasDisabled)
    ensures Tracks(l, Step(l, s, e), k, m, pid, mintedAt, since + [e], wasDisabled)
  {
    hide IsUuid, FormatToken, Join, CreateToken, Inv, DisabledAfter;
    var s' := Step(l, s, e);
    DisabledStep(since, pid, wasDisabled, e);
    assert forall x :: x in since + [e] <==> x in since || x == e;
    BornPrincipals(l, s);
    if e.AddToken? {
      MintEffect(l, s.dir, e.m, e.now);
      if Possible(s, e) {
        var (dir, answer) := CreateToken(l, s.dir, e.m, e.now);
        assert s'.dir == dir && dir.tokens[k] == s.dir.tokens[k];
      }
    }
  }

  lemma DisabledStep(events: seq<Event>, pid: string, before: bool, e: Event)
    ensures DisabledAfter(events + [e], pid, before)
      == if e.Disable? && e.pid == pid then e.disabled else DisabledAfter(events, pid, before)
  {
    assert (events + [e])[..|events|] == events;
  }

  lemma BornPrincipals(l: Library, s: State)
    requires Inv(l, s)
    ensures s.dir.principals.Keys <= s.born
  {}

  lemma {:induction false} RunTracks(l: Library, events: seq<Event>, m: Mint, mintedAt: int, more: seq<Event>)
    requires var s := Run(l, events);
      Possible(s, AddToken(m, mintedAt)) && CreateToken(l, s.dir, m, mintedAt).1.Ok?
    ensures var s := Run(l, events); var pid := m.principal.GetOr(m.newPrincipal);
      var wasDisabled := m.principal.Some? && pid in s.dir.principals && s.dir.principals[pid].disabled;
      Tracks(l, Run(l, events + [AddToken(m, mintedAt)] + more), |s.dir.tokens|, m, pid, mintedAt, more, wasDisabled)
  {
    hide Inv, Step, Tracks, CreateToken, Possible;
    var all := events + [AddToken(m, mintedAt)] + more;
    RunKeepsInv(l, all[..|all| - 1]);
    if more == [] {
      assert all[..|all| - 1] == events;
      MintIsTracked(l, Run(l, events), m, mintedAt);
    } else {
      var front := more[..|more| - 1];
      assert all[..|all| - 1] == events + [AddToken(m, mintedAt)] + front;
      assert more == front + [more[|more| - 1]];
      RunTracks(l, events, m, mintedAt, front);
      var s := Run(l, events);
      var pid := m.principal.GetOr(m.newPrincipal);
      var wasDisabled := m.principal.Some? && pid in s.dir.principals && s.dir.principals[pid].disabled;
      TrackStep(l, Run(l, all[..|all| - 1]), |s.dir.tokens|, m, pid, mintedAt, front, wasDisabled, more[|more| - 1]);
    }
  }

  /** A tracked token authenticates exactly while it is unrevoked, unexpired, and its principal there and enabled. */
  lemma TrackedAuthenticates(d: Dialect, l: Library, s: State, k: nat, m: Mint, pid: string, mintedAt: int,
                             since: seq<Event>, wasDisabled: bool, now: int)
    requires Inv(l, s) && Supported(d) && Tracks(l, s, k, m, pid, mintedAt, since, wasDisabled)
    requires NoCollision(l, s, FormatToken(m.tid, m.secret)) && Sorts(l) && m.scopes <= ALL_SCOPES
    ensures var caller := Authenticated(d, l, s.dir, FormatToken(m.tid, m.secret), now);
      && (caller.Some? <==>
            (RevokeToken(m.tid) !in since && Remove(pid) !in since
             && (m.ttl.None? || now < mintedAt + m.ttl.value) && !DisabledAfter(since, pid, wasDisabled)))
      && (caller.Some? ==> caller.value.principalId == Some(pid))
      && (caller.Some? ==> caller.value.scopes == if m.scopes == {} then {""} else m.scopes)
  {
    hide Authenticated, NoCollision, ALL_SCOPES, FormatToken, IsUuid, ScopesOf, DisabledAfter, Join;
    var text := FormatToken(m.tid, m.secret);
    var row := s.dir.tokens[k];
    RowScopes(l, row, m, pid, mintedAt);
    if Usable(s, row, text, now) {
      UsableAuthenticates(d, l, s, row, text, now);
    }
    if Authenticated(d, l, s.dir, text, now).Some? {
      var r := AuthenticatedIsUsable(d, l, s, text, now);
      assert r.id == row.id;
    }
  }

  lemma RowScopes(l: Library, row: TokenRow, m: Mint, pid: string, mintedAt: int)
    requires Sorts(l) && m.scopes <= ALL_SCOPES && row.scopes == Join(Sorted(l, m.scopes), ',')
    ensures ScopesOf(row) == if m.scopes == {} then {""} else m.scopes
  {
    hide Split, Join, ALL_SCOPES, FormatToken;
    MintedScopes(l, m, pid, mintedAt);
  }

  /**
    From the minting of a token, whatever follows: its text authenticates exactly until
    its lifetime ends, it is revoked, or its principal is removed or disabled, and then as
    that principal with the scopes asked for; without a lifetime it does not expire.
   */
  lemma MintedTokenAuthenticates(d: Dialect, l: Library, events: seq<Event>, m: Mint, mintedAt: int,
                                 more: seq<Event>, now: int)
    requires Supported(d) && Sorts(l)
    requires var s := Run(l, events);
      Possible(s, AddToken(m, mintedAt)) && CreateToken(l, s.dir, m, mintedAt).1.Ok?
    requires var text := CreateToken(l, Run(l, events).dir, m, mintedAt).1.value.0;
      NoCollision(l, Run(l, events + [AddToken(m, mintedAt)] + more), text)
    ensures var s := Run(l, events); var pid := m.principal.GetOr(m.newPrincipal);
      var wasDisabled := m.principal.Some? && pid in s.dir.principals && s.dir.principals[pid].disabled;
      var text := CreateToken(l, s.dir, m, mintedAt).1.value.0;
      var caller := Authenticated(d, l, Run(l, events + [AddToken(m, mintedAt)] + more).dir, text, now);
      && (caller.Some? <==>
            (RevokeToken(m.tid) !in more && Remove(pid) !in more
             && (m.ttl.None? || now < mintedAt + m.ttl.value) && !DisabledAfter(more, pid, wasDisabled)))
      && (caller.Some? ==> caller.value.principalId == Some(pid))
      && (caller.Some? ==> caller.value.scopes == if m.scopes == {} then {""} else m.scopes)
  {
    var s := Run(l, events);
    var pid := m.principal.GetOr(m.newPrincipal);
    var wasDisabled := m.principal.Some? && pid in s.dir.principals && s.dir.principals[pid].disabled;
    assert m.scopes <= ALL_SCOPES;
    hide Authenticated, NoCollision, Inv, Tracks, Step, CreateToken, Possible, ALL_SCOPES, Run;
    RunKeepsInv(l, events);
    RunKeepsInv(l, events + [AddToken(m, mintedAt)] + more);
    MintIsTracked(l, s, m, mintedAt);
    RunTracks(l, events, m, mintedAt, more);
    TrackedAuthenticates(d, l, Run(l, events + [AddToken(m, mintedAt)] + more), |s.dir.tokens|, m,
                         pid, mintedAt, more, wasDisabled, now);
  }
}

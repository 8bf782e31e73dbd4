/**
 The server's credentials, kept in three collections of the database: who may enter, and
 how the first administrator comes to be, one durable write at a time.
 */
module Auth {
  import opened Basics
  import opened Codec

  const STATE_ID: bytes := "server"
  const INITIAL: bytes := "initial"
  const RECOVERY: bytes := "recovery"
  const META: bytes := "_meta"
  const OWN_COLLECTIONS: set<bytes> := {"_meta/state", "_meta/users", "_meta/tokens"}

  type Time = int

  /** Stored roles are strings; only three of them are known. */
  datatype Role = Reader | Writer | Admin | Unknown(text: bytes)

  /** Timestamps are kept as text; None stands for text that is not a UTC timestamp. */
  datatype User = User(name: bytes, role: Role, disabled: bool, created: Option<Time>, updated: Option<Time>)

  datatype Token = Token(user: bytes, tag: bytes, created: Option<Time>, expires: Option<Option<Time>>)

  datatype State = State(version: int, initialized: bool)

  /** A stored document, which may not decode as the expected type. */
  datatype Doc<+T> = Undecodable | Decoded(rec: T)

  datatype Store = Store(state: map<bytes, Doc<State>>, users: map<bytes, Doc<User>>, tokens: map<bytes, Doc<Token>>)

  // ----- Validation -----

  predicate ValidHexId(id: bytes, size: nat) {
    |id| == size && forall i :: 0 <= i < |id| ==> '0' <= id[i] <= '9' || 'a' <= id[i] <= 'f'
  }

  predicate ValidLabel(s: bytes) {
    ValidUtf8(s) && 1 <= |s| <= 256
  }

  predicate Base64Url(c: byte) {
    'A' <= c <= 'Z' || 'a' <= c <= 'z' || '0' <= c <= '9' || c == '-' || c == '_'
  }

  /** `medb_` and 43 characters that decode to 32 bytes. */
  predicate ValidToken(token: bytes) {
    |token| == 48 && "medb_" <= token && forall i :: 5 <= i < 48 ==> Base64Url(token[i])
  }

  predicate ValidUser(id: bytes, u: User) {
    && ValidHexId(id, 32)
    && ValidLabel(u.name)
    && !u.role.Unknown?
    && u.created.Some? && u.updated.Some? && u.created.value <= u.updated.value
  }

  predicate ValidTokenRecord(id: bytes, t: Token) {
    && ValidHexId(id, 64)
    && ValidHexId(t.user, 32)
    && ValidLabel(t.tag)
    && t.created.Some?
    && (t.expires.Some? ==> t.expires.value.Some? && t.created.value < t.expires.value.value)
  }

  predicate ValidState(s: State) { s.version == 1 && s.initialized }

  lemma HexIdMeans(id: bytes, size: nat)
    ensures ValidHexId(id, size) <==> |id| == size && forall i :: 0 <= i < |id| ==> id[i] in "0123456789abcdef"
  {
    forall i | 0 <= i < |id| ensures '0' <= id[i] <= '9' || 'a' <= id[i] <= 'f' <==> id[i] in "0123456789abcdef" {
      HexCharMeans(id[i]);
    }
  }

  lemma HexCharMeans(c: byte)
    ensures '0' <= c <= '9' || 'a' <= c <= 'f' <==> c in "0123456789abcdef"
  {
    var n := if c <= '9' then c as int - '0' as int else c as int - 'a' as int + 10;
    assert 0 <= n < 16 && c == HexDigit(n) ==> c == "0123456789abcdef"[n];
  }

  // ----- What a stored token grants -----

  predicate Unexpired(t: Token, now: Time) {
    t.expires.Some? ==> t.expires.value.Some? && now < t.expires.value.value
  }

  /** The role of the enabled user that a live token names. */
  function Grant(s: Store, tid: bytes, now: Time): Option<Role> {
    if tid in s.tokens && s.tokens[tid].Decoded? && ValidTokenRecord(tid, s.tokens[tid].rec)
      && Unexpired(s.tokens[tid].rec, now)
    then UserRole(s.users, s.tokens[tid].rec.user)
    else None
  }

  function UserRole(users: map<bytes, Doc<User>>, uid: bytes): Option<Role> {
    if uid in users && users[uid].Decoded? && ValidUser(uid, users[uid].rec) && !users[uid].rec.disabled
    then Some(users[uid].rec.role)
    else None
  }

  /** What `authenticate` answers to a presented token. */
  function Presented(s: Store, tokenId: bytes -> bytes, token: bytes, now: Time): Option<Role> {
    if ValidToken(token) then Grant(s, tokenId(token), now) else None
  }

  /**
   What a stored token grants, in full: its record decodes and is valid, it has not expired, and
   the user it names decodes, is valid, is not disabled and has the role.
   */
  lemma GrantMeans(s: Store, tid: bytes, now: Time, r: Role)
    ensures
      Grant(s, tid, now) == Some(r) <==>
        && tid in s.tokens && s.tokens[tid].Decoded? && ValidTokenRecord(tid, s.tokens[tid].rec)
        && var t := s.tokens[tid].rec;
        && (t.expires == None || (t.expires.value.Some? && now < t.expires.value.value))
        && t.user in s.users && s.users[t.user].Decoded? && ValidUser(t.user, s.users[t.user].rec)
        && !s.users[t.user].rec.disabled && s.users[t.user].rec.role == r
  {
    hide ValidTokenRecord, ValidUser;
  }

  // ----- Ascending order of IDs -----

  predicate Less(a: bytes, b: bytes) {
    if b == [] then false
    else if a == [] then true
    else if a[0] != b[0] then a[0] < b[0]
    else Less(a[1..], b[1..])
  }

  /** The order of byte strings: a proper prefix comes first, else the first difference decides. */
  lemma {:induction false} LessMeans(a: bytes, b: bytes)
    ensures
      Less(a, b) <==>
        exists k :: 0 <= k < |b| && k <= |a| && a[..k] == b[..k] && (k == |a| || a[k] < b[k])
  {
    if a == [] && b != [] {
      assert a[..0] == b[..0];
    } else if a != [] && b != [] {
      if a[0] != b[0] {
        assert a[..0] == b[..0];
      } else {
        var a', b' := a[1..], b[1..];
        LessMeans(a', b');
        if k :| 0 <= k < |b'| && k <= |a'| && a'[..k] == b'[..k] && (k == |a'| || a'[k] < b'[k]) {
          assert a[..k + 1] == [a[0]] + a'[..k] && b[..k + 1] == [b[0]] + b'[..k];
        }
        if k :| 0 <= k < |b| && k <= |a| && a[..k] == b[..k] && (k == |a| || a[k] < b[k]) {
          assert k > 0;
          assert a[..k][1..] == a'[..k - 1] && b[..k][1..] == b'[..k - 1];
        }
      }
    }
  }

  lemma {:induction false} LessTotal(a: bytes, b: bytes)
    ensures a == b || Less(a, b) || Less(b, a)
  {
    if a != [] && b != [] && a[0] == b[0] {
      LessTotal(a[1..], b[1..]);
      assert a == [a[0]] + a[1..] && b == [b[0]] + b[1..];
    }
  }

  lemma {:induction false} LessTrans(a: bytes, b: bytes, c: bytes)
    requires Less(a, b) && Less(b, c)
    ensures Less(a, c) && a != c
  {
    if a != [] && a[0] == b[0] == c[0] {
      LessTrans(a[1..], b[1..], c[1..]);
    }
  }

  /** The next ID of `slices.Sorted`. */
  method Least(ids: set<bytes>) returns (m: bytes)
    requires ids != {}
    ensures m in ids && forall id :: id in ids ==> id == m || Less(m, id)
  {
    m :| m in ids;
    var rest := ids - {m};
    while rest != {}
      invariant m in ids && rest <= ids
      invariant forall id :: id in ids - rest ==> id == m || Less(m, id)
      decreases |rest|
    {
      var x :| x in rest;
      rest := rest - {x};
      LessTotal(m, x);
      if Less(x, m) {
        forall id | id in ids - rest && id != x ensures Less(x, id) {
          if id != m {
            LessTrans(x, m, id);
          }
        }
        m := x;
      }
    }
  }

  /** A live administrator's token that the scan reaches: no undecodable record sorts before it. */
  ghost predicate FoundAdmin(s: Store, now: Time, tid: bytes) {
    && Grant(s, tid, now) == Some(Admin)
    && forall id :: id in s.tokens && Less(id, tid) ==> s.tokens[id].Decoded?
  }

  // ----- Bootstrap: how far it has come -----

  predicate Reserved(name: bytes) { name == META || META + "/" <= name }

  predicate IsInitialToken(tid: bytes, d: Doc<Token>) {
    d.Decoded? && ValidTokenRecord(tid, d.rec) && d.rec.tag == INITIAL && d.rec.expires == None
  }

  predicate IsInitialAdmin(uid: bytes, d: Doc<User>, name: bytes) {
    d.Decoded? && ValidUser(uid, d.rec) && d.rec.name == name && d.rec.role == Admin && !d.rec.disabled
  }

  predicate Blank(s: Store) { s == Store(map[], map[], map[]) }

  predicate OneToken(s: Store, tid: bytes) {
    s.tokens.Keys == {tid} && IsInitialToken(tid, s.tokens[tid])
  }

  predicate OneAdmin(s: Store, tid: bytes, name: bytes) {
    && OneToken(s, tid)
    && var uid := s.tokens[tid].rec.user;
       s.users.Keys == {uid} && IsInitialAdmin(uid, s.users[uid], name)
  }

  /** Nothing yet, the token only, or the token and its administrator; no marker. */
  predicate Partial(s: Store, tid: bytes, name: bytes) {
    s.state == map[] && (Blank(s) || (OneToken(s, tid) && (s.users == map[] || OneAdmin(s, tid, name))))
  }

  predicate Complete(s: Store, tid: bytes, name: bytes) {
    OneAdmin(s, tid, name) && s.state == map[STATE_ID := Decoded(State(1, true))]
  }

  /** Records once written are never changed or removed. */
  predicate Keeps(s: Store, t: Store) {
    && (forall id :: id in s.tokens ==> id in t.tokens && t.tokens[id] == s.tokens[id])
    && (forall id :: id in s.users ==> id in t.users && t.users[id] == s.users[id])
    && (forall id :: id in s.state ==> id in t.state && t.state[id] == s.state[id])
  }

  datatype Reason =
    | InvalidMarker | NoActiveAdmin | BrokenRecords | UnreadableMarker | ForeignState | ReservedName
    | BadName | BadToken | UnrelatedRecords | UnreadableToken | ConflictingToken
    | ConflictingUsers | UnreadableAdmin | ConflictingAdmin | NotValidated

  /** `initializeAuth` returns nil for the first two. */
  datatype Outcome = Done | AlreadyDone | Rejected(why: Reason) | Interrupted(e: Error)

  /** What the operator supplies, and what `initializeAuth` first checks. */
  ghost predicate Admissible(names: set<bytes>, token: Option<bytes>, name: bytes) {
    && (forall n :: n in names && Reserved(n) ==> n in OWN_COLLECTIONS)
    && ValidLabel(name)
    && token.Some? && ValidToken(token.value)
  }

  /** What one run of `initializeAuth` may do. */
  ghost predicate Attempt(s: Store, t: Store, names: set<bytes>, token: Option<bytes>, tid: bytes, name: bytes,
                          now: Time, r: Outcome) {
    && Keeps(s, t)
    && (r.Rejected? || r.AlreadyDone? ==> t == s)
    && (STATE_ID in s.state ==>
          && t == s
          && (r == AlreadyDone <==> Running(s, now))
          && (r.AlreadyDone? || r.Rejected?))
    && (STATE_ID !in s.state ==>
          && !r.AlreadyDone?
          && (r.Rejected? <==> !(Admissible(names, token, name) && Partial(s, tid, name)))
          && (r == Done ==> Complete(t, tid, name))
          && (r.Interrupted? ==> Partial(t, tid, name) || Complete(t, tid, name)))
  }

  /** The marker is valid and the scan finds an administrator. */
  ghost predicate Running(s: Store, now: Time) {
    && STATE_ID in s.state && s.state[STATE_ID].Decoded? && ValidState(s.state[STATE_ID].rec)
    && exists id :: FoundAdmin(s, now, id)
  }

  // ----- The collections and the operations on them -----

  class AuthStore {
    const tokenId: bytes -> bytes
    const others: set<bytes> // names of the other collections
    var state: map<bytes, Doc<State>>
    var users: map<bytes, Doc<User>>
    var tokens: map<bytes, Doc<Token>>
    ghost var errors: seq<Error> // of the writes that failed

    constructor (tokenId: bytes -> bytes, others: set<bytes>, s: Store)
      ensures this.tokenId == tokenId && this.others == others && Contents() == s && errors == []
    {
      this.tokenId, this.others, errors := tokenId, others, [];
      state, users, tokens := s.state, s.users, s.tokens;
    }

    function Contents(): Store
      reads this
    {
      Store(state, users, tokens)
    }

    /** A hash: 64 lower-case hexadecimal digits for every token. */
    ghost predicate Hashes() { forall t :: ValidHexId(tokenId(t), 64) }

    /** A durable `Set`. One that fails, or is cut off by a crash, may still have taken effect. */
    method SetToken(id: bytes, t: Token) returns (err: Status)
      modifies this`tokens, this`errors
      ensures errors == Noted(old(errors), err)
      ensures err == None ==> tokens == old(tokens)[id := Decoded(t)]
      ensures tokens == old(tokens) || tokens == old(tokens)[id := Decoded(t)]
    {
      if * {
        tokens := tokens[id := Decoded(t)];
        return None;
      }
      if * {
        tokens := tokens[id := Decoded(t)];
      }
      var e: Error :| true;
      errors := errors + [e];
      err := Some(e);
    }

    method SetUser(id: bytes, u: User) returns (err: Status)
      modifies this`users, this`errors
      ensures errors == Noted(old(errors), err)
      ensures err == None ==> users == old(users)[id := Decoded(u)]
      ensures users == old(users) || users == old(users)[id := Decoded(u)]
    {
      if * {
        users := users[id := Decoded(u)];
        return None;
      }
      if * {
        users := users[id := Decoded(u)];
      }
      var e: Error :| true;
      errors := errors + [e];
      err := Some(e);
    }

    method SetState(id: bytes, s: State) returns (err: Status)
      modifies this`state, this`errors
      ensures errors == Noted(old(errors), err)
      ensures err == None ==> state == old(state)[id := Decoded(s)]
      ensures state == old(state) || state == old(state)[id := Decoded(s)]
    {
      if * {
        state := state[id := Decoded(s)];
        return None;
      }
      if * {
        state := state[id := Decoded(s)];
      }
      var e: Error :| true;
      errors := errors + [e];
      err := Some(e);
    }

    /** `authenticate`, failing closed. */
    method Authenticate(token: bytes, now: Time) returns (role: Option<Role>)
      ensures role == Presented(Contents(), tokenId, token, now)
      ensures forall r ::
        role == Some(r) <==>
          && ValidToken(token) && tokenId(token) in tokens && tokens[tokenId(token)].Decoded?
          && ValidTokenRecord(tokenId(token), tokens[tokenId(token)].rec)
          && var t := tokens[tokenId(token)].rec;
          && (t.expires == None || (t.expires.value.Some? && now < t.expires.value.value))
          && t.user in users && users[t.user].Decoded? && ValidUser(t.user, users[t.user].rec)
          && !users[t.user].rec.disabled && users[t.user].rec.role == r
    {
      hide ValidTokenRecord, ValidUser, ValidToken;
      if !ValidToken(token) {
        return None;
      }
      var tid := tokenId(token);
      if tid !in tokens || tokens[tid].Undecodable? || !ValidTokenRecord(tid, tokens[tid].rec) {
        return None;
      }
      var rec := tokens[tid].rec;
      match rec.expires {
        case Some(None) => return None;
        case Some(Some(expires)) =>
          if now >= expires {
            return None;
          }
        case None =>
      }
      if rec.user !in users || users[rec.user].Undecodable? {
        return None;
      }
      var user := users[rec.user].rec;
      if !ValidUser(rec.user, user) || user.disabled {
        return None;
      }
      role := Some(user.role);
    }

    /** One turn of the scan. */
    method IsAdminToken(tid: bytes, rec: Token, now: Time) returns (ok: bool)
      requires tid in tokens && tokens[tid] == Decoded(rec)
      ensures ok <==> Grant(Contents(), tid, now) == Some(Admin)
      ensures
        ok <==>
          && ValidTokenRecord(tid, rec)
          && (rec.expires == None || (rec.expires.value.Some? && now < rec.expires.value.value))
          && rec.user in users && users[rec.user].Decoded? && ValidUser(rec.user, users[rec.user].rec)
          && !users[rec.user].rec.disabled && users[rec.user].rec.role == Admin
    {
      hide ValidTokenRecord, ValidUser;
      if !ValidTokenRecord(tid, rec) {
        return false;
      }
      match rec.expires {
        case Some(None) => return false;
        case Some(Some(expires)) =>
          if now >= expires {
            return false;
          }
        case None =>
      }
      if rec.user !in users || users[rec.user].Undecodable? || !ValidUser(rec.user, users[rec.user].rec) {
        return false;
      }
      ok := !users[rec.user].rec.disabled && users[rec.user].rec.role == Admin;
    }

    /** `hasActiveAdmin`: tokens in ascending order; an undecodable one stops the scan with an error. */
    method HasActiveAdmin(now: Time) returns (ok: bool, broken: bool)
      ensures ok <==> exists id :: FoundAdmin(Contents(), now, id)
      ensures
        ok <==> exists id ::
          && id in tokens && tokens[id].Decoded? && ValidTokenRecord(id, tokens[id].rec)
          && var t := tokens[id].rec;
          && (t.expires == None || (t.expires.value.Some? && now < t.expires.value.value))
          && t.user in users && users[t.user].Decoded? && ValidUser(t.user, users[t.user].rec)
          && !users[t.user].rec.disabled && users[t.user].rec.role == Admin
          && forall other :: other in tokens && Less(other, id) ==> tokens[other].Decoded?
      ensures !ok && !broken ==> forall id :: id in tokens ==>
        tokens[id].Decoded? && Grant(Contents(), id, now) != Some(Admin)
      ensures broken ==> !ok && exists id :: id in tokens && tokens[id].Undecodable?
    {
      var rest := tokens.Keys;
      while rest != {}
        invariant rest <= tokens.Keys
        invariant forall id :: id in tokens.Keys - rest ==>
          tokens[id].Decoded? && Grant(Contents(), id, now) != Some(Admin)
        invariant forall a, b :: a in tokens.Keys - rest && b in rest ==> Less(a, b)
        decreases |rest|
      {
        var tid := Least(rest);
        if tokens[tid].Undecodable? {
          forall id ensures !FoundAdmin(Contents(), now, id) {
            if id in rest && id != tid {
              assert Less(tid, id);
            }
          }
          return false, true;
        }
        var found := IsAdminToken(tid, tokens[tid].rec, now);
        if found {
          forall id | id in tokens && Less(id, tid) ensures tokens[id].Decoded? {
            if id in rest {
              LessIrreflexive(tid);
              if id != tid {
                LessTrans(id, tid, id);
              }
            }
          }
          assert FoundAdmin(Contents(), now, tid);
          return true, false;
        }
        rest := rest - {tid};
      }
      ok, broken := false, false;
    }
  }

  lemma {:induction false} LessIrreflexive(a: bytes)
    ensures !Less(a, a)
  {
    if a != [] {
      LessIrreflexive(a[1..]);
    }
  }

  // ----- initializeAuth -----

  /** The three results of one bootstrap step. */
  datatype Progress = Go(uid: bytes) | Refuse(why: Reason) | Broke(e: Error)

  method ReservedConflict(names: set<bytes>) returns (conflict: bool)
    ensures conflict <==> exists n :: n in names && Reserved(n) && n !in OWN_COLLECTIONS
  {
    var rest := names;
    while rest != {}
      invariant rest <= names
      invariant forall n :: n in names - rest && Reserved(n) ==> n in OWN_COLLECTIONS
      decreases |rest|
    {
      var n :| n in rest;
      if Reserved(n) && n !in OWN_COLLECTIONS {
        return true;
      }
      rest := rest - {n};
    }
    conflict := false;
  }

  /** What a run that starts from `s` without a marker may accept so far. */
  ghost predicate TokenReady(s: Store, t: Store, tid: bytes) {
    && Keeps(s, t) && t.users == s.users && t.state == s.state
    && OneToken(t, tid)
    && (s.tokens == map[] || t == s)
  }

  /** The initial token: written if the store is blank, else it must be the one an earlier run wrote. */
  method EnsureToken(auth: AuthStore, tid: bytes, newUser: bytes, now: Time) returns (p: Progress)
    requires ValidHexId(tid, 64) && ValidHexId(newUser, 32) && newUser !in auth.users
    modifies auth`tokens, auth`errors
    ensures auth.errors == Noted(old(auth.errors), if p.Broke? then Some(p.e) else None)
    ensures p.Go? && old(auth.tokens) == map[] ==>
      auth.tokens == map[tid := Decoded(Token(newUser, "initial", Some(now), None))]
    ensures p.Go? ==> TokenReady(old(auth.Contents()), auth.Contents(), tid) && auth.tokens[tid].rec.user == p.uid
    ensures p.Go? ==> (old(auth.tokens) == map[] ==> auth.users == map[])
    ensures p.Refuse? ==> auth.Contents() == old(auth.Contents())
    ensures p.Refuse? <==> !((old(auth.tokens) == map[] && auth.users == map[]) || OneToken(old(auth.Contents()), tid))
    ensures p.Broke? ==>
      auth.users == map[] && old(auth.tokens) == map[] && (auth.tokens == map[] || OneToken(auth.Contents(), tid))
  {
    InitialIsLabel();
    hide ValidLabel, ValidHexId;
    if tid !in auth.tokens {
      if |auth.tokens| != 0 || |auth.users| != 0 {
        return Refuse(UnrelatedRecords);
      }
      var err := auth.SetToken(tid, Token(newUser, INITIAL, Some(now), None));
      if err.Some? {
        return Broke(err.value);
      }
      return Go(newUser);
    }
    match auth.tokens[tid]
    case Undecodable => return Refuse(UnreadableToken);
    case Decoded(rec) =>
      OneKey(auth.tokens, tid);
      if |auth.tokens| != 1 || !ValidTokenRecord(tid, rec) || rec.tag != INITIAL || rec.expires != None {
        return Refuse(ConflictingToken);
      }
      p := Go(rec.user);
  }

  lemma InitialIsLabel()
    ensures ValidLabel(INITIAL) && ValidLabel(RECOVERY)
  {
    hide ValidUtf8;
    AsciiIsUtf8(INITIAL);
    AsciiIsUtf8(RECOVERY);
  }

  lemma OneKey<T>(m: map<bytes, T>, k: bytes)
    requires k in m
    ensures |m| == 1 <==> m.Keys == {k}
  {
    if |m| == 1 {
      assert |m.Keys - {k}| == 0;
      assert m.Keys - {k} == {};
    }
  }

  /** The initial administrator, in the same way. */
  method EnsureAdmin(auth: AuthStore, uid: bytes, name: bytes, now: Time) returns (p: Progress)
    requires ValidHexId(uid, 32) && ValidLabel(name)
    modifies auth`users, auth`errors
    ensures auth.errors == Noted(old(auth.errors), if p.Broke? then Some(p.e) else None)
    ensures p.Go? && old(auth.users) == map[] ==>
      auth.users == map[uid := Decoded(User(name, Admin, false, Some(now), Some(now)))]
    ensures p.Go? ==>
      && p.uid == uid && auth.users.Keys == {uid} && IsInitialAdmin(uid, auth.users[uid], name)
      && (old(auth.users) == map[] || auth.users == old(auth.users))
    ensures p.Refuse? ==> auth.Contents() == old(auth.Contents())
    ensures p.Refuse? <==>
      !(old(auth.users) == map[] || (old(auth.users).Keys == {uid} && IsInitialAdmin(uid, old(auth.users)[uid], name)))
    ensures p.Broke? ==>
      && old(auth.users) == map[]
      && (auth.users == map[] || (auth.users.Keys == {uid} && IsInitialAdmin(uid, auth.users[uid], name)))
  {
    if uid !in auth.users {
      if |auth.users| != 0 {
        return Refuse(ConflictingUsers);
      }
      var err := auth.SetUser(uid, User(name, Admin, false, Some(now), Some(now)));
      if err.Some? {
        return Broke(err.value);
      }
      return Go(uid);
    }
    match auth.users[uid]
    case Undecodable => return Refuse(UnreadableAdmin);
    case Decoded(user) =>
      OneKey(auth.users, uid);
      if |auth.users| != 1 || !ValidUser(uid, user) || user.name != name || user.role != Admin || user.disabled {
        return Refuse(ConflictingAdmin);
      }
      p := Go(uid);
  }

  /** The marker is there: only the records behind it are checked. */
  method CheckInitialized(auth: AuthStore, marker: State, now: Time) returns (r: Outcome)
    requires STATE_ID in auth.state && auth.state[STATE_ID] == Decoded(marker)
    ensures r.AlreadyDone? || r.Rejected?
    ensures r.AlreadyDone? <==> Running(auth.Contents(), now)
  {
    if !ValidState(marker) {
      return Rejected(InvalidMarker);
    }
    var ok, broken := auth.HasActiveAdmin(now);
    if broken {
      return Rejected(BrokenRecords);
    }
    r := if ok then AlreadyDone else Rejected(NoActiveAdmin);
  }

  /** The three writes, each skipped if an earlier run has made it: token, administrator, marker. */
  method WriteInitial(auth: AuthStore, tid: bytes, name: bytes, newUser: bytes, tokenTime: Time, userTime: Time)
    returns (r: Outcome)
    requires auth.state == map[] && ValidLabel(name) && ValidHexId(tid, 64)
    requires ValidHexId(newUser, 32) && newUser !in auth.users
    modifies auth
    ensures auth.errors == Noted(old(auth.errors), if r.Interrupted? then Some(r.e) else None)
    ensures r == Done ==>
      var initial := Decoded(Token(newUser, "initial", Some(tokenTime), None));
      auth.tokens == if old(auth.tokens) == map[] then map[tid := initial] else old(auth.tokens)
    ensures r == Done && old(auth.users) == map[] ==>
      forall uid :: uid in auth.users ==>
        auth.users[uid] == Decoded(User(name, Admin, false, Some(userTime), Some(userTime)))
    ensures !r.AlreadyDone? && Keeps(old(auth.Contents()), auth.Contents())
    ensures r.Rejected? ==> auth.Contents() == old(auth.Contents())
    ensures r.Rejected? <==> !Partial(old(auth.Contents()), tid, name)
    ensures r == Done ==> Complete(auth.Contents(), tid, name)
    ensures r.Interrupted? ==> Partial(auth.Contents(), tid, name) || Complete(auth.Contents(), tid, name)
  {
    hide ValidLabel, ValidHexId, ValidUser, ValidTokenRecord;
    var p := EnsureToken(auth, tid, newUser, tokenTime);
    if p.Refuse? {
      return Rejected(p.why);
    }
    if p.Broke? {
      return Interrupted(p.e);
    }
    var uid := p.uid;
    assert ValidHexId(uid, 32) by { UserIdValid(tid, auth.tokens[tid]); }
    p := EnsureAdmin(auth, uid, name, userTime);
    if p.Refuse? {
      return Rejected(p.why);
    }
    if p.Broke? {
      return Interrupted(p.e);
    }
    var token, user := auth.tokens[tid].rec, auth.users[uid].rec;
    if !ValidTokenRecord(tid, token) || !ValidUser(uid, user) || user.disabled || user.role != Admin {
      return Rejected(NotValidated);
    }
    var err := auth.SetState(STATE_ID, State(1, true));
    if err.Some? {
      return Interrupted(err.value);
    }
    r := Done;
  }

  lemma UserIdValid(tid: bytes, d: Doc<Token>)
    requires IsInitialToken(tid, d)
    ensures ValidHexId(d.rec.user, 32)
  {}

  /**
   `initializeAuth`. `token` is the operator's token, None if none or two were given or the
   file could not be read; `newUser` is what the random generator returns; the times are
   what the clock says at each reading.
   */
  method InitializeAuth(auth: AuthStore, token: Option<bytes>, name: bytes, newUser: bytes,
                        checkTime: Time, tokenTime: Time, userTime: Time)
    returns (r: Outcome)
    requires auth.Hashes() && ValidHexId(newUser, 32) && newUser !in auth.users
    modifies auth
    ensures auth.errors == Noted(old(auth.errors), if r.Interrupted? then Some(r.e) else None)
    ensures r == Done ==> token.Some?
    ensures r == Done ==>
      var initial := Decoded(Token(newUser, "initial", Some(tokenTime), None));
      auth.tokens == if old(auth.tokens) == map[] then map[auth.tokenId(token.value) := initial] else old(auth.tokens)
    ensures r == Done && old(auth.users) == map[] ==>
      forall uid :: uid in auth.users ==>
        auth.users[uid] == Decoded(User(name, Admin, false, Some(userTime), Some(userTime)))
    ensures r == Done ==> auth.state == map["server" := Decoded(State(1, true))]
    ensures Attempt(old(auth.Contents()), auth.Contents(), auth.others, token,
                    if token.Some? then auth.tokenId(token.value) else [], name, checkTime, r)
  {
    hide ValidLabel, ValidHexId, IsInitialToken, IsInitialAdmin, ValidToken;
    if STATE_ID in auth.state {
      match auth.state[STATE_ID]
      case Undecodable => return Rejected(UnreadableMarker);
      case Decoded(marker) =>
        r := CheckInitialized(auth, marker, checkTime);
        return;
    }
    if |auth.state| != 0 {
      return Rejected(ForeignState);
    }
    var conflict := ReservedConflict(auth.others);
    if conflict {
      return Rejected(ReservedName);
    }
    if !ValidLabel(name) {
      return Rejected(BadName);
    }
    if token == None || !ValidToken(token.value) {
      return Rejected(BadToken);
    }
    r := WriteInitial(auth, auth.tokenId(token.value), name, newUser, tokenTime, userTime);
  }

  // ----- What the bootstrap promises -----

  /** Runs with the same token and name, each possibly cut off, starting from `tr[0]`. */
  ghost predicate Attempts(tr: seq<Store>, names: set<bytes>, token: bytes, tid: bytes, name: bytes) {
    && tr != []
    && forall i :: 0 < i < |tr| ==> Attempted(tr[i - 1], tr[i], names, token, tid, name)
  }

  ghost predicate Attempted(s: Store, t: Store, names: set<bytes>, token: bytes, tid: bytes, name: bytes) {
    exists now: Time, r: Outcome :: Attempt(s, t, names, Some(token), tid, name, now, r)
  }

  /** However often it is cut off, the bootstrap stays resumable, and no run of it is ever rejected. */
  lemma {:induction false} BootstrapResumes(tr: seq<Store>, names: set<bytes>, token: bytes, tid: bytes, name: bytes,
                                            t: Store, now: Time, r: Outcome)
    requires Attempts(tr, names, token, tid, name) && Blank(tr[0]) && Admissible(names, Some(token), name)
    requires Attempt(tr[|tr| - 1], t, names, Some(token), tid, name, now, r)
    ensures !r.Rejected?
    ensures r == Done || r == AlreadyDone ==> Complete(t, tid, name)
  {
    for i := 1 to |tr|
      invariant Partial(tr[i - 1], tid, name) || Complete(tr[i - 1], tid, name)
    {
      assert Attempted(tr[i - 1], tr[i], names, token, tid, name);
      var now', r' :| Attempt(tr[i - 1], tr[i], names, Some(token), tid, name, now', r');
      OneAttempt(tr[i - 1], tr[i], names, token, tid, name, now', r');
    }
    OneAttempt(tr[|tr| - 1], t, names, token, tid, name, now, r);
  }

  lemma OneAttempt(s: Store, t: Store, names: set<bytes>, token: bytes, tid: bytes, name: bytes, now: Time, r: Outcome)
    requires Attempt(s, t, names, Some(token), tid, name, now, r) && Admissible(names, Some(token), name)
    requires Partial(s, tid, name) || Complete(s, tid, name)
    ensures Partial(t, tid, name) || Complete(t, tid, name)
    ensures !r.Rejected? && (r == Done || r == AlreadyDone ==> Complete(t, tid, name))
  {
    hide OneAdmin, OneToken;
    if Complete(s, tid, name) {
      CompleteIsRunning(s, tid, name, now);
    }
  }

  /** After the bootstrap one token, and no other, is an administrator's, at every time. */
  lemma CompleteGrants(s: Store, tid: bytes, name: bytes, now: Time, id: bytes)
    requires Complete(s, tid, name)
    ensures Grant(s, id, now) == if id == tid then Some(Admin) else None
  {
    hide ValidHexId, ValidLabel;
  }

  lemma CompleteIsRunning(s: Store, tid: bytes, name: bytes, now: Time)
    requires Complete(s, tid, name)
    ensures Running(s, now)
  {
    CompleteGrants(s, tid, name, now, tid);
    LessIrreflexive(tid);
    assert FoundAdmin(s, now, tid);
  }

  /** Until the marker is written no credential but the initial one is granted anything. */
  lemma PartialGrants(s: Store, tid: bytes, name: bytes, now: Time, id: bytes)
    requires Partial(s, tid, name)
    ensures Grant(s, id, now) == if id == tid && s.users != map[] then Some(Admin) else None
  {
    hide ValidHexId, ValidLabel;
  }

  /** Every stored token ID is that of a well-formed token somebody may hold. */
  ghost predicate Issued(s: Store, tokenId: bytes -> bytes) {
    forall id :: id in s.tokens ==> exists token :: ValidToken(token) && tokenId(token) == id
  }

  /** The scan meets no undecodable record before the ID of this token. */
  ghost predicate ReadableTo(s: Store, id: bytes) {
    forall other :: other in s.tokens && Less(other, id) ==> s.tokens[other].Decoded?
  }

  /**
   The two checks agree: the start-up scan finds an administrator if and only if some token,
   presented to `authenticate`, is an administrator's and its record is within the scan's
   reach. Where every record decodes, that is any administrator's token.
   */
  lemma ChecksAgree(s: Store, tokenId: bytes -> bytes, now: Time)
    requires Issued(s, tokenId)
    ensures (exists id :: FoundAdmin(s, now, id)) <==>
      exists token :: Presented(s, tokenId, token, now) == Some(Admin) && ReadableTo(s, tokenId(token))
    ensures (forall id :: id in s.tokens ==> s.tokens[id].Decoded?) ==>
      ((exists id :: FoundAdmin(s, now, id)) <==> exists token :: Presented(s, tokenId, token, now) == Some(Admin))
  {
    if id :| FoundAdmin(s, now, id) {
      var token :| ValidToken(token) && tokenId(token) == id;
      assert Presented(s, tokenId, token, now) == Some(Admin) && ReadableTo(s, tokenId(token));
    }
    if token :| Presented(s, tokenId, token, now) == Some(Admin) && ReadableTo(s, tokenId(token)) {
      assert FoundAdmin(s, now, tokenId(token));
    }
    if (forall id :: id in s.tokens ==> s.tokens[id].Decoded?) {
      if token :| Presented(s, tokenId, token, now) == Some(Admin) {
        assert ReadableTo(s, tokenId(token));
      }
    }
  }

  // ----- recoverAuth -----

  /** No credential that works stops working or changes its role. */
  ghost predicate StillGranted(s: Store, t: Store, except: bytes) {
    forall id, now :: id != except && Grant(s, id, now).Some? ==> Grant(t, id, now) == Grant(s, id, now)
  }

  /** A credential that grants something after, and did not before. */
  ghost predicate NewlyGranted(s: Store, t: Store, id: bytes, now: Time) {
    Grant(s, id, now) == None && Grant(t, id, now).Some?
  }

  /** A stored, valid, unexpired token that names the user `uid`. */
  ghost predicate NamesUser(s: Store, id: bytes, uid: bytes, now: Time) {
    && id in s.tokens && s.tokens[id].Decoded?
    && ValidTokenRecord(id, s.tokens[id].rec) && Unexpired(s.tokens[id].rec, now)
    && s.tokens[id].rec.user == uid
  }

  /**
   `recoverAuth`: token, then administrator, then marker. `uid` and `token` are freshly
   generated, but `uid` only unused by users. After success another credential has come to
   work if and only if it was stored naming `uid`, and then it is an administrator's.
   */
  method RecoverAuth(auth: AuthStore, token: bytes, uid: bytes, name: bytes, now: Time) returns (err: Status)
    requires auth.Hashes() && ValidLabel(name) && ValidHexId(uid, 32) && uid !in auth.users
    requires ValidToken(token) && auth.tokenId(token) !in auth.tokens
    modifies auth
    ensures auth.errors == Noted(old(auth.errors), err)
    ensures
      var tokens := old(auth.tokens)[auth.tokenId(token) := Decoded(Token(uid, "recovery", Some(now), None))];
      var users := old(auth.users)[uid := Decoded(User(name, Admin, false, Some(now), Some(now)))];
      var state := old(auth.state)["server" := Decoded(State(1, true))];
      && (err == None ==> auth.Contents() == Store(state, users, tokens))
      && (auth.tokens == old(auth.tokens) || auth.tokens == tokens)
      && (auth.users == old(auth.users) || (auth.users == users && auth.tokens == tokens))
      && (auth.state == old(auth.state) || (auth.state == state && auth.users == users && auth.tokens == tokens))
    ensures StillGranted(old(auth.Contents()), auth.Contents(), auth.tokenId(token))
    ensures forall id, t :: id != auth.tokenId(token) && NewlyGranted(old(auth.Contents()), auth.Contents(), id, t) ==>
      NamesUser(old(auth.Contents()), id, uid, t)
    ensures err == None ==>
      && (forall t :: Grant(auth.Contents(), auth.tokenId(token), t) == Some(Admin))
      && (forall id, t :: NamesUser(old(auth.Contents()), id, uid, t) ==>
            NewlyGranted(old(auth.Contents()), auth.Contents(), id, t) && Grant(auth.Contents(), id, t) == Some(Admin))
      && STATE_ID in auth.state && auth.state[STATE_ID] == Decoded(State(1, true))
  {
    hide ValidLabel, ValidHexId, Grant, StillGranted, NewlyGranted, NamesUser;
    var tid := auth.tokenId(token);
    ghost var s := auth.Contents();
    InitialIsLabel();
    assert ValidHexId(tid, 64);
    err := auth.SetToken(tid, Token(uid, RECOVERY, Some(now), None));
    if err == None {
      err := auth.SetUser(uid, User(name, Admin, false, Some(now), Some(now)));
    }
    if err == None {
      err := auth.SetState(STATE_ID, State(1, true));
    }
    RecoveredGrants(s, auth.Contents(), tid, uid, name, now);
    if err == None {
      forall t ensures Grant(auth.Contents(), tid, t) == Some(Admin) {
        NewTokenGrants(auth.Contents(), tid, uid, name, now, t);
      }
      forall id, t | NamesUser(s, id, uid, t)
        ensures NewlyGranted(s, auth.Contents(), id, t) && Grant(auth.Contents(), id, t) == Some(Admin)
      {
        OldTokenGrants(s, auth.Contents(), tid, uid, name, now, id, t);
      }
    }
  }

  lemma NewTokenGrants(s: Store, tid: bytes, uid: bytes, name: bytes, created: Time, now: Time)
    requires tid in s.tokens && s.tokens[tid] == Decoded(Token(uid, RECOVERY, Some(created), None))
    requires uid in s.users && s.users[uid] == Decoded(User(name, Admin, false, Some(created), Some(created)))
    requires ValidHexId(tid, 64) && ValidHexId(uid, 32) && ValidLabel(name)
    ensures Grant(s, tid, now) == Some(Admin)
  {
    InitialIsLabel();
    hide ValidHexId, ValidLabel;
  }

  /** A stored token that names the drawn ID grants nothing before, and everything after. */
  lemma OldTokenGrants(s: Store, t: Store, tid: bytes, uid: bytes, name: bytes, created: Time, id: bytes, now: Time)
    requires tid !in s.tokens && uid !in s.users && NamesUser(s, id, uid, now)
    requires ValidHexId(uid, 32) && ValidLabel(name)
    requires t.tokens == s.tokens[tid := Decoded(Token(uid, RECOVERY, Some(created), None))]
    requires t.users == s.users[uid := Decoded(User(name, Admin, false, Some(created), Some(created)))]
    ensures NewlyGranted(s, t, id, now) && Grant(t, id, now) == Some(Admin)
  {
    hide ValidHexId, ValidLabel, ValidTokenRecord, Unexpired;
    assert t.tokens[id] == s.tokens[id];
  }

  /** For any two IDs, a store in which a recovery that draws `uid` brings the old token `id` to life. */
  lemma OldTokenRevives(id: bytes, uid: bytes, now: Time) returns (s: Store)
    requires ValidHexId(id, 64) && ValidHexId(uid, 32)
    ensures uid !in s.users && NamesUser(s, id, uid, now) && Grant(s, id, now) == None
  {
    InitialIsLabel();
    hide ValidLabel, ValidHexId;
    s := Store(map[], map[], map[id := Decoded(Token(uid, INITIAL, Some(now), None))]);
  }

  /** Wherever the recovery is cut off, it takes nothing from anybody and gives nothing to anybody else. */
  lemma RecoveredGrants(s: Store, t: Store, tid: bytes, uid: bytes, name: bytes, now: Time)
    requires tid !in s.tokens && uid !in s.users
    requires t.tokens == s.tokens || t.tokens == s.tokens[tid := Decoded(Token(uid, RECOVERY, Some(now), None))]
    requires t.users == s.users || t.users == s.users[uid := Decoded(User(name, Admin, false, Some(now), Some(now)))]
    ensures StillGranted(s, t, tid)
    ensures forall id, now' :: id != tid && NewlyGranted(s, t, id, now') ==> NamesUser(s, id, uid, now')
  {
    hide ValidHexId, ValidLabel, ValidTokenRecord, ValidUser, Unexpired;
    forall id, now' | id != tid && Grant(s, id, now').Some? ensures Grant(t, id, now') == Grant(s, id, now') {
      assert t.tokens[id] == s.tokens[id];
    }
    forall id, now' | id != tid && NewlyGranted(s, t, id, now') ensures NamesUser(s, id, uid, now') {
      assert t.tokens[id] == s.tokens[id];
    }
  }
}

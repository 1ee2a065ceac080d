/** The `users` app's models: `CustomUser` (email login, required names)
    and `Follow`, the subscription of one user to an author. */
module UsersModels {
  import opened Util
  import opened Text

  /** A user row; `username` and `is_staff` come from Django's `AbstractUser`. */
  datatype CustomUser = CustomUser(
    id: int,
    email: string,
    username: string,
    firstName: string,
    lastName: string,
    isStaff: bool)

  /** One subscription row: `user` follows `author`. */
  datatype Follow = Follow(user: int, author: int)

  /** Characters Django's username validator (`^[\w.@+-]+\Z`) admits, as far
      as this model's alphabet goes: ASCII letters and digits, `_ . @ + -`,
      and Cyrillic letters. */
  predicate UsernameChar(c: char) {
    'a' <= c <= 'z' || 'A' <= c <= 'Z' || '0' <= c <= '9' || c in "_.@+-"
    || '\U{0400}' <= c <= '\U{045F}'
  }

  /** Field validation of one user: required fields, length bounds, username alphabet. */
  predicate UserFieldsValid(u: CustomUser) {
    && 1 <= |u.email| <= 254
    && 1 <= |u.username| <= 150 && (forall i :: 0 <= i < |u.username| ==> UsernameChar(u.username[i]))
    && 1 <= |u.firstName| <= 150
    && 1 <= |u.lastName| <= 150
  }

  /** The user table: valid rows, and id, email and username each unique. */
  ghost predicate UsersValid(users: seq<CustomUser>) {
    && (forall u :: u in users ==> UserFieldsValid(u))
    && UniqueBy(users, (u: CustomUser) => u.id)
    && UniqueBy(users, (u: CustomUser) => u.email)
    && UniqueBy(users, (u: CustomUser) => u.username)
  }

  function UserIds(users: seq<CustomUser>): set<int> {
    set u | u in users :: u.id
  }

  /** The follow table: both ends exist, and the `unique_follow` constraint on (user, author). */
  ghost predicate FollowsValid(users: seq<CustomUser>, follows: seq<Follow>) {
    && (forall f :: f in follows ==> f.user in UserIds(users) && f.author in UserIds(users))
    && UniqueBy(follows, (f: Follow) => f)
  }

  /** `CustomUser.__str__`. */
  function UserStr(u: CustomUser): (s: string)
    ensures UserFieldsValid(u) ==> |s| > 0 && ' ' !in s
  {
    u.username
  }

  /** `Follow.__str__`, with the two related users looked up. */
  function FollowStr(user: CustomUser, author: CustomUser): (s: string)
    ensures |s| == |UserStr(user)| + 3 + |UserStr(author)|
    ensures s[..|UserStr(user)|] == UserStr(user) && s[|UserStr(user)|..|UserStr(user)| + 3] == " - "
    ensures s[|UserStr(user)| + 3..] == UserStr(author)
  {
    UserStr(user) + " - " + UserStr(author)
  }

  /** A valid username has no space, so the first space of a follow's string
      form ends the follower's name: the string form names both users. */
  lemma {:induction false} FollowStrNamesBoth(u1: CustomUser, a1: CustomUser, u2: CustomUser, a2: CustomUser)
    requires UserFieldsValid(u1) && UserFieldsValid(u2)
    requires FollowStr(u1, a1) == FollowStr(u2, a2)
    ensures u1.username == u2.username && a1.username == a2.username
  {
    var s := FollowStr(u1, a1);
    var n1, n2 := |u1.username|, |u2.username|;
    assert s[n1] == ' ' && s[n2] == ' ';
    assert forall i :: 0 <= i < n1 ==> s[i] == u1.username[i] && UsernameChar(s[i]);
    assert forall i :: 0 <= i < n2 ==> s[i] == u2.username[i] && UsernameChar(s[i]);
    assert n1 == n2;
    assert u1.username == s[..n1] == u2.username;
    assert a1.username == s[n1 + 3..] == a2.username;
  }

  datatype CleanError = SelfFollow

  /** `Follow.clean`: a user may not follow themselves. */
  function Clean(f: Follow): (r: Option<CleanError>)
    ensures r.Some? <==> f.user == f.author
  {
    if f.user == f.author then Some(SelfFollow) else None
  }

  /** Why a follow row is not saved: `clean` refused it, or the store did. */
  datatype InsertError = SelfFollowRejected | UniqueViolation | ForeignKeyViolation

  /** Saving a follow row: the store enforces the foreign keys and
      `unique_follow`. `Follow.clean` is not part of saving. */
  function InsertFollow(users: seq<CustomUser>, follows: seq<Follow>, f: Follow): (r: Result<seq<Follow>, InsertError>)
    ensures r.Ok? <==> f.user in UserIds(users) && f.author in UserIds(users) && f !in follows
    ensures r.Ok? ==> r.value == follows + [f]
  {
    if f.user !in UserIds(users) || f.author !in UserIds(users) then Err(ForeignKeyViolation)
    else if f in follows then Err(UniqueViolation)
    else Ok(follows + [f])
  }

  /** Saving keeps the follow table valid. */
  lemma InsertFollowKeepsValid(users: seq<CustomUser>, follows: seq<Follow>, f: Follow)
    requires FollowsValid(users, follows)
    requires InsertFollow(users, follows, f).Ok?
    ensures FollowsValid(users, InsertFollow(users, follows, f).value)
  {
    var r := follows + [f];
    forall i, j | 0 <= i < j < |r| ensures r[i] != r[j] {
      if j == |follows| {
        assert r[i] in follows;
      } else {
        assert r[i] == follows[i] && r[j] == follows[j];
      }
    }
  }

  /** Full validation before saving (`full_clean`): `clean`, then the store's checks. */
  function ValidatedInsert(users: seq<CustomUser>, follows: seq<Follow>, f: Follow): (r: Result<seq<Follow>, InsertError>)
    ensures f.user == f.author ==> r == Err(SelfFollowRejected)
    ensures f.user != f.author ==> r == InsertFollow(users, follows, f)
  {
    if Clean(f).Some? then Err(SelfFollowRejected) else InsertFollow(users, follows, f)
  }

  /** Saving a pair that is already there fails, whatever else holds:
      subscribing twice is refused the second time. */
  lemma SecondInsertRefused(users: seq<CustomUser>, follows: seq<Follow>, f: Follow)
    requires InsertFollow(users, follows, f).Ok?
    ensures InsertFollow(users, InsertFollow(users, follows, f).value, f) == Err(UniqueViolation)
  {
    assert f in follows + [f];
  }

  /** Deleting a user deletes every follow row with that user at either end (`on_delete=CASCADE`). */
  function FollowsAfterUserDelete(follows: seq<Follow>, uid: int): (r: seq<Follow>)
    ensures forall f :: f in r <==> f in follows && f.user != uid && f.author != uid
    ensures forall f :: multiset(r)[f] == if f.user != uid && f.author != uid then multiset(follows)[f] else 0
  {
    var keep := (f: Follow) => f.user != uid && f.author != uid;
    FilterCounts(follows, keep);
    Filter(follows, keep)
  }

  /** Deleting a user and its follow rows keeps both tables valid. */
  lemma {:induction false} UserDeleteKeepsFollowsValid(users: seq<CustomUser>, follows: seq<Follow>, uid: int)
    requires UsersValid(users) && FollowsValid(users, follows)
    ensures var users' := Filter(users, (u: CustomUser) => u.id != uid);
      UsersValid(users') && FollowsValid(users', FollowsAfterUserDelete(follows, uid))
  {
    var keep := (u: CustomUser) => u.id != uid;
    var users' := Filter(users, keep);
    FilterKeepsUnique(users, keep, (u: CustomUser) => u.id);
    FilterKeepsUnique(users, keep, (u: CustomUser) => u.email);
    FilterKeepsUnique(users, keep, (u: CustomUser) => u.username);
    var follows' := FollowsAfterUserDelete(follows, uid);
    FilterKeepsUnique(follows, (f: Follow) => f.user != uid && f.author != uid, (f: Follow) => f);
    forall f | f in follows' ensures f.user in UserIds(users') && f.author in UserIds(users') {
      var u :| u in users && u.id == f.user;
      var a :| a in users && a.id == f.author;
      assert u in users' && a in users';
    }
  }
}

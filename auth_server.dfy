/** The account-backed chat server of server/index-auth-simple.js: an in-memory
    account store with registration and login, the user search and online-list
    queries, and the socket handlers that track which sockets are online and route
    private messages. */
module AuthServer {
  import opened JsString
  import opened JsMap
  import opened Transport
  import opened Events

  /** An account: `{ id, username, password (hash), email, isOnline, lastSeen,
      createdAt }`, plus the `socketId` that `user_join` adds. */
  datatype Account = Account(
    id: string,
    username: string,
    passwordHash: string,
    email: string,
    isOnline: bool,
    lastSeen: int,
    createdAt: int,
    socketId: Option<SocketId>)

  /** An account as the HTTP routes return it: everything but the password. */
  datatype PublicAccount = PublicAccount(
    id: string,
    username: string,
    email: string,
    isOnline: bool,
    lastSeen: int,
    createdAt: int,
    socketId: Option<SocketId>)

  /** `const { password: _, ...userWithoutPassword } = user`. */
  function Public(a: Account): (p: PublicAccount)
    ensures p.username == a.username && p.isOnline == a.isOnline
  {
    PublicAccount(a.id, a.username, a.email, a.isOnline, a.lastSeen, a.createdAt, a.socketId)
  }

  datatype Result<T, E> = Success(value: T) | Failure(error: E)

  // ---------------------------------------------------------------- register

  /** Why registration was refused, in the order the checks run. */
  datatype RegisterError = MissingCredentials | BadUsernameLength | PasswordTooShort | UsernameTaken

  /** The HTTP 400 error text of each refusal. */
  function RegisterErrorText(e: RegisterError): string {
    match e
    case MissingCredentials => "Username and password are required"
    case BadUsernameLength => "Username must be between 2 and 20 characters"
    case PasswordTooShort => "Password must be at least 6 characters long"
    case UsernameTaken => "Username already exists"
  }

  /** The register route's guard chain (server/index-auth-simple.js:50-77); the
      empty string stands for a missing field. The length checks use the raw,
      untrimmed username, and so does the existence check, whose outcome is
      `taken`. */
  function CheckRegistration(taken: bool, username: string, password: string)
    : (r: Option<RegisterError>)
    ensures r == Some(MissingCredentials) <==> username == "" || password == ""
    ensures r == Some(BadUsernameLength) <==>
      username != "" && password != "" && !(2 <= Utf16Length(username) <= 20)
    ensures r == Some(PasswordTooShort) <==>
      username != "" && password != "" && 2 <= Utf16Length(username) <= 20 && Utf16Length(password) < 6
    ensures r == Some(UsernameTaken) <==>
      username != "" && password != "" && 2 <= Utf16Length(username) <= 20 && Utf16Length(password) >= 6 && taken
    ensures r == None <==>
      username != "" && password != "" && 2 <= Utf16Length(username) <= 20 && Utf16Length(password) >= 6 && !taken
  {
    if username == "" || password == "" then Some(MissingCredentials)
    else if Utf16Length(username) < 2 || Utf16Length(username) > 20 then Some(BadUsernameLength)
    else if Utf16Length(password) < 6 then Some(PasswordTooShort)
    else if taken then Some(UsernameTaken)
    else None
  }

  /** Lengths are JavaScript lengths: one emoji is two code units, so it passes
      the two-character minimum, and eleven of them exceed the maximum of 20. */
  lemma EmojiUsernameLengths()
    ensures CheckRegistration(false, "\U{1F600}", "secret1") == None
    ensures CheckRegistration(false, seq(11, _ => '\U{1F600}'), "secret1") == Some(BadUsernameLength)
  {
    Utf16LengthOfEmoji();
    Utf16LengthAstral(seq(11, _ => '\U{1F600}'));
  }

  /** The existence check looks at the raw username but the account stores it
      trimmed: with "bob" registered, " bob" passes every check and stores a second
      account whose username is also "bob"; once both are online, the online list
      names "bob" twice. */
  lemma PaddedUsernameRegistersAgain(taken: map<string, Account>, email: string, id1: string, id2: string,
                                     hash: string, now: int, a: Account, b: Account)
    requires taken.Keys == {"bob"}
    requires a == NewAccount("bob", email, id1, hash, now).(isOnline := true)
    requires b == NewAccount(" bob", email, id2, hash, now).(isOnline := true)
    ensures CheckRegistration(" bob" in taken, " bob", "secret1") == None
    ensures a.username == b.username == "bob"
    ensures var list := OnlineOthers([a, b], "alice");
      |list| == 2 && list[0].username == list[1].username == "bob"
  {
    TrimPaddedBob();
    OnlineOthersPair(a, b, "alice");
  }

  /** Trimming the padded name gives the plain one. */
  lemma TrimPaddedBob()
    ensures Trim(" bob") == "bob"
  {
    assert SpaceRunFrom(" bob", 1) == 1;
    assert TrimStart(" bob") == "bob";
    TrimOfTrimmed("bob");
  }

  /** The online list of two online accounts other than the caller lists both. */
  lemma OnlineOthersPair(a: Account, b: Account, current: string)
    requires a.isOnline && b.isOnline && a.username != current && b.username != current
    ensures OnlineOthers([a, b], current) == [Public(a), Public(b)]
  {
    assert [a, b][1..] == [b] && [b][1..] == [];
    assert OnlineOthers([b], current) == [Public(b)] + OnlineOthers([], current);
    assert OnlineOthers([a, b], current) == [Public(a)] + OnlineOthers([b], current);
  }

  /** The account a successful registration stores: trimmed username and email
      (`email?.trim() || ''`), offline, last seen and created now. */
  function NewAccount(username: string, email: string, newId: string, hash: string, now: int): Account
  {
    Account(newId, Trim(username), hash, Trim(email), false, now, now, None)
  }

  // ---------------------------------------------------------------- login

  /** Why login was refused. An unknown username and a wrong password give the
      same answer. */
  datatype LoginError = LoginMissingCredentials | InvalidCredentials

  function LoginErrorText(e: LoginError): string {
    match e
    case LoginMissingCredentials => "Username and password are required"
    case InvalidCredentials => "Invalid username or password"
  }

  // ---------------------------------------------------------------- verify

  /** `GET /api/auth/verify` once the token has been accepted: the account named in
      the token, without its password, or "User not found". */
  function VerifiedAccount(accounts: map<string, Account>, tokenUsername: string)
    : (r: Result<PublicAccount, string>)
    ensures r.Success? <==> tokenUsername in accounts
    ensures r.Success? ==> r.value == Public(accounts[tokenUsername])
    ensures r.Failure? ==> r.error == "User not found"
  {
    if tokenUsername in accounts then Success(Public(accounts[tokenUsername]))
    else Failure("User not found")
  }

  // ---------------------------------------------------------------- search

  /** `arr.slice(0, end)` in JavaScript: a negative `end` counts from the end. */
  function SliceTo<T>(xs: seq<T>, end: int): (r: seq<T>)
    ensures 0 <= end ==> r == xs[..if end < |xs| then end else |xs|]
    ensures end < 0 ==> r == xs[..if |xs| + end < 0 then 0 else |xs| + end]
  {
    var stop := if end < 0 then (if |xs| + end < 0 then 0 else |xs| + end)
                else (if end < |xs| then end else |xs|);
    xs[..stop]
  }

  /** The accounts other than `current` whose lower-cased username contains `query`,
      in store order. */
  function Matches(accounts: seq<Account>, current: string, query: string): (r: seq<Account>)
    ensures |r| <= |accounts|
    ensures forall a :: a in r <==>
      a in accounts && a.username != current && Includes(Lower(a.username), query)
  {
    if accounts == [] then []
    else
      var a := accounts[0];
      (if a.username != current && Includes(Lower(a.username), query) then [a] else [])
      + Matches(accounts[1..], current, query)
  }

  /** `filter` keeps order: the matches of a concatenation are the matches of
      its parts, one after the other. */
  lemma {:induction false} MatchesAppend(xs: seq<Account>, ys: seq<Account>, current: string, query: string)
    ensures Matches(xs + ys, current, query) == Matches(xs, current, query) + Matches(ys, current, query)
  {
    if xs == [] {
      assert xs + ys == ys;
    } else {
      assert (xs + ys)[0] == xs[0] && (xs + ys)[1..] == xs[1..] + ys;
      MatchesAppend(xs[1..], ys, current, query);
    }
  }

  /** The accounts of `xs` with `isOnline` equal to `online`, in order. */
  function WithStatus(xs: seq<PublicAccount>, online: bool): (r: seq<PublicAccount>)
    ensures |r| <= |xs|
    ensures forall a :: a in r <==> a in xs && a.isOnline == online
  {
    if xs == [] then []
    else (if xs[0].isOnline == online then [xs[0]] else []) + WithStatus(xs[1..], online)
  }

  /** `xs.sort((a, b) => b.isOnline - a.isOnline)`: JavaScript's sort is stable, so
      with this comparator it moves the online accounts before the offline ones and
      keeps the order within each group. */
  function OnlineFirst(xs: seq<PublicAccount>): seq<PublicAccount>
  {
    WithStatus(xs, true) + WithStatus(xs, false)
  }

  /** Splitting by status loses nothing and invents nothing. */
  lemma {:induction false} StatusSplitIsPermutation(xs: seq<PublicAccount>)
    ensures multiset(WithStatus(xs, true)) + multiset(WithStatus(xs, false)) == multiset(xs)
  {
    if xs != [] {
      var t := xs[1..];
      StatusSplitIsPermutation(t);
      assert xs == [xs[0]] + t;
      assert multiset(xs) == multiset{xs[0]} + multiset(t);
      if xs[0].isOnline {
        assert WithStatus(xs, true) == [xs[0]] + WithStatus(t, true);
        assert WithStatus(xs, false) == WithStatus(t, false);
      } else {
        assert WithStatus(xs, true) == WithStatus(t, true);
        assert WithStatus(xs, false) == [xs[0]] + WithStatus(t, false);
      }
    }
  }

  /** Every account of `WithStatus(xs, online)` has that status. */
  lemma {:induction false} WithStatusHas(xs: seq<PublicAccount>, online: bool, k: int)
    requires 0 <= k < |WithStatus(xs, online)|
    ensures WithStatus(xs, online)[k].isOnline == online
  {
    assert WithStatus(xs, online)[k] in WithStatus(xs, online);
  }

  /** `OnlineFirst` reorders without losing or inventing accounts. */
  lemma OnlineFirstPermutes(xs: seq<PublicAccount>)
    ensures multiset(OnlineFirst(xs)) == multiset(xs)
    ensures |OnlineFirst(xs)| == |xs|
  {
    StatusSplitIsPermutation(xs);
    var all := OnlineFirst(xs);
    assert multiset(all) == multiset(xs);
    assert |all| == |multiset(all)| == |multiset(xs)| == |xs|;
  }

  /** `OnlineFirst` orders by the comparator: no offline account ahead of an
      online one. */
  lemma OnlineFirstOrders(xs: seq<PublicAccount>, i: int, j: int)
    requires 0 <= i < j < |OnlineFirst(xs)| && !OnlineFirst(xs)[i].isOnline
    ensures !OnlineFirst(xs)[j].isOnline
  {
    var on, off := WithStatus(xs, true), WithStatus(xs, false);
    assert OnlineFirst(xs) == on + off;
    if i < |on| {
      WithStatusHas(xs, true, i);
      assert false;
    }
    WithStatusHas(xs, false, j - |on|);
  }

  /** The `limit` a search uses when the request names none. */
  const DefaultSearchLimit := 10

  /** The matches a search shows, before ordering: the first `limit` of them (in
      the sense of `slice(0, limit)`), without passwords. */
  function Shown(accounts: seq<Account>, current: string, query: string, limit: int): (r: seq<PublicAccount>)
    ensures forall a :: a in r ==> a.username != current && Includes(Lower(a.username), query)
    ensures 0 <= limit ==> |r| <= limit
    // the first matches, as many as `limit` allows and the matches supply
    ensures var n := |Matches(accounts, current, query)|;
      |r| == if 0 <= limit then (if limit < n then limit else n) else (if n + limit < 0 then 0 else n + limit)
    ensures forall i :: 0 <= i < |r| ==> r[i] == Public(Matches(accounts, current, query)[i])
  {
    var matches := Matches(accounts, current, query);
    var taken := SliceTo(matches, limit);
    var r := seq(|taken|, i requires 0 <= i < |taken| => Public(taken[i]));
    assert forall i :: 0 <= i < |r| ==> r[i].username == taken[i].username && taken[i] in matches;
    r
  }

  /** The search route's result (server/index-auth-simple.js:235-256): a blank query
      is refused; otherwise the matches `Shown` picks, online ones first.
      `limit` is the already-parsed `limit` parameter, None when it is absent. */
  function Search(accounts: seq<Account>, current: string, q: string, limit: Option<int>)
    : (r: Result<seq<PublicAccount>, string>)
    ensures r.Failure? <==> !HasText(q)
    ensures r.Failure? ==> r.error == "Search query is required (minimum 1 character)"
    ensures r.Success? ==>
      var query := Lower(Trim(q));
      var n := if limit.Some? then limit.value else DefaultSearchLimit;
      && multiset(r.value) == multiset(Shown(accounts, current, query, n))
      && (forall a :: a in r.value ==> a.username != current && Includes(Lower(a.username), query))
      && (0 <= n ==> |r.value| <= n)
      && (forall i, j :: 0 <= i < j < |r.value| && !r.value[i].isOnline ==> !r.value[j].isOnline)
    // the stable sort: within each status, the shown order is kept
    ensures r.Success? ==>
      var shown := Shown(accounts, current, Lower(Trim(q)), if limit.Some? then limit.value else DefaultSearchLimit);
      r.value == WithStatus(shown, true) + WithStatus(shown, false)
  {
    TrimIsEmptyIffBlank(q);
    if Trim(q) == [] then Failure("Search query is required (minimum 1 character)")
    else
      var n := if limit.Some? then limit.value else DefaultSearchLimit;
      var shown := Shown(accounts, current, Lower(Trim(q)), n);
      OnlineFirstPermutes(shown);
      forall i, j | 0 <= i < j < |OnlineFirst(shown)| && !OnlineFirst(shown)[i].isOnline
        ensures !OnlineFirst(shown)[j].isOnline
      {
        OnlineFirstOrders(shown, i, j);
      }
      assert forall a :: a in OnlineFirst(shown) ==> a in shown by {
        forall a | a in OnlineFirst(shown) ensures a in shown {
          assert a in multiset(OnlineFirst(shown));
        }
      }
      Success(OnlineFirst(shown))
  }

  // ---------------------------------------------------------------- online list

  /** `a.localeCompare(b) <= 0`, on code points rather than locale collation. */
  predicate NameLe(a: string, b: string) {
    a == [] || (b != [] && (a[0] < b[0] || (a[0] == b[0] && NameLe(a[1..], b[1..]))))
  }

  /** Any two names are comparable. */
  lemma {:induction false} NameLeTotal(a: string, b: string)
    ensures NameLe(a, b) || NameLe(b, a)
  {
    if a != [] && b != [] && a[0] == b[0] {
      NameLeTotal(a[1..], b[1..]);
    }
  }

  /** The comparison is transitive, so adjacent order is global order. */
  lemma {:induction false} NameLeTransitive(a: string, b: string, c: string)
    requires NameLe(a, b) && NameLe(b, c)
    ensures NameLe(a, c)
  {
    if a != [] && b != [] && c != [] && a[0] == b[0] && b[0] == c[0] {
      NameLeTransitive(a[1..], b[1..], c[1..]);
    }
  }

  /** Each account's username is no greater than the next one's. */
  ghost predicate SortedByName(xs: seq<PublicAccount>) {
    forall i :: 0 <= i < |xs| - 1 ==> NameLe(xs[i].username, xs[i + 1].username)
  }

  /** Insert `x` before the first account it does not follow: a stable insertion. */
  function InsertByName(x: PublicAccount, xs: seq<PublicAccount>): (r: seq<PublicAccount>)
    requires SortedByName(xs)
    ensures SortedByName(r)
    ensures multiset(r) == multiset(xs) + multiset{x}
    ensures r != [] && (r[0] == x || (xs != [] && r[0] == xs[0]))
  {
    if xs == [] then [x]
    else if NameLe(x.username, xs[0].username) then [x] + xs
    else
      NameLeTotal(x.username, xs[0].username);
      var rest := InsertByName(x, xs[1..]);
      assert xs == [xs[0]] + xs[1..];
      [xs[0]] + rest
  }

  /** Insertion sort by username; equal names keep their store order. */
  function SortByName(xs: seq<PublicAccount>): (r: seq<PublicAccount>)
    ensures SortedByName(r)
    ensures multiset(r) == multiset(xs)
  {
    if xs == [] then []
    else
      assert xs == [xs[0]] + xs[1..];
      InsertByName(xs[0], SortByName(xs[1..]))
  }

  /** The online filter keeps order, like `Matches`. */
  lemma {:induction false} OnlineOthersAppend(xs: seq<Account>, ys: seq<Account>, current: string)
    ensures OnlineOthers(xs + ys, current) == OnlineOthers(xs, current) + OnlineOthers(ys, current)
  {
    if xs == [] {
      assert xs + ys == ys;
    } else {
      assert (xs + ys)[0] == xs[0] && (xs + ys)[1..] == xs[1..] + ys;
      OnlineOthersAppend(xs[1..], ys, current);
    }
  }

  /** No username occurs twice. */
  ghost predicate DistinctNames(r: seq<PublicAccount>) {
    forall i, j :: 0 <= i < j < |r| ==> r[i].username != r[j].username
  }

  /** Distinct usernames in the store give distinct usernames in the list. The
      store does not guarantee them (`PaddedUsernameRegistersAgain`), so this holds
      only for stores that happen to have them. */
  lemma {:induction false} OnlineOthersDistinct(accounts: seq<Account>, current: string)
    requires forall i, j :: 0 <= i < j < |accounts| ==> accounts[i].username != accounts[j].username
    ensures DistinctNames(OnlineOthers(accounts, current))
  {
    if accounts != [] {
      var a, rest := accounts[0], accounts[1..];
      OnlineOthersDistinct(rest, current);
      var tail := OnlineOthers(rest, current);
      forall p | p in tail ensures p.username != a.username {
        var b :| b in rest && b.username != current && b.isOnline && p == Public(b);
        var k :| 0 <= k < |rest| && rest[k] == b;
        assert accounts[k + 1] == b;
      }
      var r := OnlineOthers(accounts, current);
      assert DistinctNames(tail);
      if a.username != current && a.isOnline {
        assert r == [Public(a)] + tail;
        forall i, j | 0 <= i < j < |r| ensures r[i].username != r[j].username {
          if i == 0 {
            assert r[0] == Public(a) && r[j] == tail[j - 1] && r[j] in tail;
          } else {
            assert r[i] == tail[i - 1] && r[j] == tail[j - 1];
          }
        }
      } else {
        assert r == tail;
      }
    }
  }

  /** The online accounts other than `current`, without passwords, in store order. */
  function OnlineOthers(accounts: seq<Account>, current: string): (r: seq<PublicAccount>)
    ensures forall p :: p in r <==> exists a :: a in accounts && a.username != current && a.isOnline && p == Public(a)
  {
    if accounts == [] then []
    else
      var a := accounts[0];
      (if a.username != current && a.isOnline then [Public(a)] else []) + OnlineOthers(accounts[1..], current)
  }

  /** The online-list route (server/index-auth-simple.js:281-287): exactly the
      online accounts other than the caller, ordered by username. */
  function OnlineList(accounts: seq<Account>, current: string): (r: seq<PublicAccount>)
    ensures SortedByName(r)
    ensures forall p :: p in r <==> exists a :: a in accounts && a.username != current && a.isOnline && p == Public(a)
    // a reordering of the filtered list: every online account as often as the store holds it
    ensures multiset(r) == multiset(OnlineOthers(accounts, current))
  {
    var others := OnlineOthers(accounts, current);
    var r := SortByName(others);
    assert forall p :: p in r <==> p in others by {
      forall p ensures p in r <==> p in others {
        assert p in r <==> p in multiset(r);
      }
    }
    r
  }

  /** Sorted by adjacent pairs means sorted between any two positions. */
  lemma {:induction false} SortedByNameGlobally(xs: seq<PublicAccount>, i: int, j: int)
    requires SortedByName(xs) && 0 <= i <= j < |xs|
    ensures NameLe(xs[i].username, xs[j].username)
    decreases j - i
  {
    if i == j {
      NameLeReflexive(xs[i].username);
    } else {
      SortedByNameGlobally(xs, i + 1, j);
      NameLeTransitive(xs[i].username, xs[i + 1].username, xs[j].username);
    }
  }

  lemma {:induction false} NameLeReflexive(a: string)
    ensures NameLe(a, a)
  {
    if a != [] {
      NameLeReflexive(a[1..]);
    }
  }

  // ---------------------------------------------------------------- sockets

  /** The first socket, in `onlineUsers` order, whose entry's `userId` is `target`:
      `Array.from(onlineUsers.entries()).find(([_, user]) => user.userId === target)`. */
  function FindSocket(keys: seq<SocketId>, table: map<SocketId, OnlineEntry>, target: string): (r: Option<nat>)
    requires forall k :: k in keys ==> k in table
    ensures r.Some? ==> r.value < |keys| && table[keys[r.value]].userId == target
    ensures r.Some? ==> forall j :: 0 <= j < r.value ==> table[keys[j]].userId != target
    ensures r.None? ==> forall j :: 0 <= j < |keys| ==> table[keys[j]].userId != target
  {
    if keys == [] then None
    else if table[keys[0]].userId == target then Some(0)
    else
      match FindSocket(keys[1..], table, target)
      case None => None
      case Some(i) => Some(i + 1)
  }

  class Server {
    /** `users`: raw username -> account. */
    var accounts: OMap<string, Account>
    /** `onlineUsers`: socket id -> `{ userId, username, socketId }`. */
    var onlineUsers: OMap<SocketId, OnlineEntry>
    /** `messages`: every private message accepted, in order. */
    var messages: seq<DirectMessage>
    /** Sockets the transport holds open. */
    var connected: set<SocketId>

    ghost predicate Valid()
      reads this
    {
      accounts.Valid() && onlineUsers.Valid()
    }

    constructor ()
      ensures Valid()
      ensures accounts == EmptyMap() && onlineUsers == EmptyMap() && messages == [] && connected == {}
    {
      accounts, onlineUsers, messages, connected := EmptyMap(), EmptyMap(), [], {};
    }

    /** `POST /api/auth/register` (server/index-auth-simple.js:45-123); `newId` stands
        for `generateUserId()` and `hash` for the bcrypt hash of `password`. */
    method Register(username: string, password: string, email: string, newId: string, hash: string, now: int)
      returns (r: Result<PublicAccount, RegisterError>)
      requires Valid()
      modifies this
      ensures Valid()
      ensures onlineUsers == old(onlineUsers) && messages == old(messages) && connected == old(connected)
      // a refusal changes nothing
      ensures CheckRegistration(username in old(accounts.table), username, password).Some? ==>
        r == Failure(CheckRegistration(username in old(accounts.table), username, password).value)
        && accounts == old(accounts)
      // a success adds exactly one account, under the raw username, offline
      ensures CheckRegistration(username in old(accounts.table), username, password).None? ==>
        var a := NewAccount(username, email, newId, hash, now);
        && accounts.keys == old(accounts.keys) + [username]
        && accounts.table == old(accounts.table)[username := a]
        && r == Success(Public(a))
    {
      var check := CheckRegistration(username in accounts.table, username, password);
      if check.Some? {
        return Failure(check.value);
      }
      var a := NewAccount(username, email, newId, hash, now);
      accounts := accounts.Set(username, a);
      r := Success(Public(a));
    }

    /** `POST /api/auth/login` (server/index-auth-simple.js:125-184); `passwordMatches`
        stands for `bcrypt.compare`. */
    method Login(username: string, password: string, now: int, passwordMatches: (string, string) -> bool)
      returns (r: Result<PublicAccount, LoginError>)
      requires Valid()
      modifies this
      ensures Valid()
      ensures onlineUsers == old(onlineUsers) && messages == old(messages) && connected == old(connected)
      ensures (username == "" || password == "") ==> r == Failure(LoginMissingCredentials) && accounts == old(accounts)
      // an unknown user and a wrong password are refused alike
      ensures username != "" && password != "" &&
              (username !in old(accounts.table) || !passwordMatches(password, old(accounts.table[username].passwordHash))) ==>
        r == Failure(InvalidCredentials) && accounts == old(accounts)
      // a success changes only `lastSeen`
      ensures username != "" && password != "" && username in old(accounts.table) &&
              passwordMatches(password, old(accounts.table[username].passwordHash)) ==>
        && accounts.keys == old(accounts.keys)
        && accounts.table == old(accounts.table)[username := old(accounts.table[username]).(lastSeen := now)]
        && r == Success(Public(accounts.table[username]))
    {
      if username == "" || password == "" {
        return Failure(LoginMissingCredentials);
      }
      if username !in accounts.table {
        return Failure(InvalidCredentials);
      }
      var a := accounts.table[username];
      if !passwordMatches(password, a.passwordHash) {
        return Failure(InvalidCredentials);
      }
      accounts := accounts.Set(username, a.(lastSeen := now));
      r := Success(Public(accounts.table[username]));
    }

    /** A socket connects. */
    method Connect(s: SocketId)
      requires Valid()
      modifies this
      ensures Valid()
      ensures connected == old(connected) + {s}
      ensures accounts == old(accounts) && onlineUsers == old(onlineUsers) && messages == old(messages)
    {
      connected := connected + {s};
    }

    /** `user_join` (server/index-auth-simple.js:344-384): the socket is recorded as
        online whether or not the name is registered; a registered account is
        marked online on this socket. */
    method UserJoin(s: SocketId, username: string, now: int) returns (out: seq<Emit>)
      requires Valid()
      modifies this
      ensures Valid()
      ensures messages == old(messages) && connected == old(connected)
      ensures onlineUsers.table == old(onlineUsers.table)[s := OnlineEntry(username, username, s)]
      ensures onlineUsers.keys == if s in old(onlineUsers.table) then old(onlineUsers.keys) else old(onlineUsers.keys) + [s]
      ensures username in old(accounts.table) ==>
        accounts.keys == old(accounts.keys)
        && accounts.table == old(accounts.table)[username :=
             old(accounts.table[username]).(isOnline := true, socketId := Some(s), lastSeen := now)]
      ensures username !in old(accounts.table) ==> accounts == old(accounts)
      ensures out == [Emit({s}, Welcome("Welcome " + username + "!", username, username)),
                      Emit(BroadcastFrom(connected, s), UserOnline(Peer(username, username, None, None))),
                      Emit(connected, OnlineUsersUpdated(onlineUsers.Values()))]
    {
      if username in accounts.table {
        var a := accounts.table[username];
        accounts := accounts.Set(username, a.(isOnline := true, socketId := Some(s), lastSeen := now));
      }
      onlineUsers := onlineUsers.Set(s, OnlineEntry(username, username, s));
      out := [Emit({s}, Welcome("Welcome " + username + "!", username, username)),
              Emit(BroadcastFrom(connected, s), UserOnline(Peer(username, username, None, None))),
              Emit(connected, OnlineUsersUpdated(onlineUsers.Values()))];
    }

    /** `disconnect` (server/index-auth-simple.js:386-409), after the transport has
        closed the socket. */
    method Disconnect(s: SocketId, now: int) returns (out: seq<Emit>)
      requires Valid()
      modifies this
      ensures Valid()
      ensures messages == old(messages) && connected == old(connected) - {s}
      // an unknown socket changes nothing else
      ensures s !in old(onlineUsers.table) ==> out == [] && accounts == old(accounts) && onlineUsers == old(onlineUsers)
      ensures s in old(onlineUsers.table) ==>
        var e := old(onlineUsers.table[s]);
        // only this socket's entry goes
        && onlineUsers.table == old(onlineUsers.table) - {s}
        && onlineUsers.keys == Without(old(onlineUsers.keys), s)
        // its account, if any, is marked offline
        && (e.username in old(accounts.table) ==>
              accounts.keys == old(accounts.keys)
              && accounts.table == old(accounts.table)[e.username :=
                   old(accounts.table[e.username]).(isOnline := false, lastSeen := now)])
        && (e.username !in old(accounts.table) ==> accounts == old(accounts))
        && out == [Emit(BroadcastFrom(connected, s), UserOffline(e.username, e.userId)),
                   Emit(connected, OnlineUsersUpdated(onlineUsers.Values()))]
    {
      connected := connected - {s};
      if s !in onlineUsers.table {
        return [];
      }
      var e := onlineUsers.table[s];
      if e.username in accounts.table {
        var a := accounts.table[e.username];
        accounts := accounts.Set(e.username, a.(isOnline := false, lastSeen := now));
      }
      onlineUsers := onlineUsers.Delete(s);
      out := [Emit(BroadcastFrom(connected, s), UserOffline(e.username, e.userId)),
              Emit(connected, OnlineUsersUpdated(onlineUsers.Values()))];
    }

    /** `private_message` (server/index-auth-simple.js:412-444): ignored from an
        unknown socket; otherwise logged, delivered to the first online socket of the
        target (if any), and always acknowledged to the sender. `id` stands for
        `Date.now()`. */
    method PrivateMessage(s: SocketId, targetUserId: string, message: string, id: int, now: int)
      returns (out: seq<Emit>)
      requires Valid()
      modifies this
      ensures Valid()
      ensures accounts == old(accounts) && onlineUsers == old(onlineUsers) && connected == old(connected)
      ensures s !in onlineUsers.table ==> out == [] && messages == old(messages)
      ensures s in onlineUsers.table ==>
        var sender := onlineUsers.table[s];
        var m := DirectMessage(id, sender.userId, sender.username, targetUserId, message, now, "private");
        var found := FindSocket(onlineUsers.keys, onlineUsers.table, targetUserId);
        && messages == old(messages) + [m]
        && out == (if found.Some? then [Emit({onlineUsers.keys[found.value]} * connected, PrivateMessageReceived(m))] else [])
                  + [Emit({s}, PrivateMessageSent(m))]
    {
      if s !in onlineUsers.table {
        return [];
      }
      var sender := onlineUsers.table[s];
      var m := DirectMessage(id, sender.userId, sender.username, targetUserId, message, now, "private");
      messages := messages + [m];
      var found := FindSocket(onlineUsers.keys, onlineUsers.table, targetUserId);
      out := [];
      if found.Some? {
        out := [Emit({onlineUsers.keys[found.value]} * connected, PrivateMessageReceived(m))];
      }
      out := out + [Emit({s}, PrivateMessageSent(m))];
    }
  }
}

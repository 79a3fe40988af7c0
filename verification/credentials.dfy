/** The Basic-Auth credential store: accounts are encoded once into
    `"Basic " + base64(user ":" password)` tokens (section 2 of RFC 7617),
    sorted by token, and looked up with a lower-bound binary search followed
    by one exact comparison. Go strings are byte strings here and Go's `<`
    on strings is byte-lexicographic, so the order is defined explicitly. */
module Credentials {
  import opened Common
  import Base64

  /** One configured account. */
  datatype Account = Account(user: Bytes, password: Bytes)

  /** `BasicAuthPair`: the wire token an account is recognised by, and its user. */
  datatype Pair = Pair(code: Bytes, user: Bytes)

  /** `:`, the separator between user and password. */
  const Colon: bv8 := 58

  /** `"Basic "`, the scheme tag that prefixes every token. */
  const BasicPrefix: Bytes := [66, 97, 115, 105, 99, 32]

  const EmptyListError := "Empty list of authorized credentials."
  const EmptyFieldError := "User or password is empty"

  /* ----- byte-lexicographic order (Go's `<` on strings) ----- */

  /** `a < b`: at the first differing byte `a`'s is smaller, or `a` is a
      proper prefix of `b`. */
  predicate Less(a: Bytes, b: Bytes)
    decreases |a|
  {
    if |a| == 0 then |b| > 0
    else if |b| == 0 then false
    else if a[0] != b[0] then a[0] < b[0]
    else Less(a[1..], b[1..])
  }

  lemma {:induction false} LessIrreflexive(a: Bytes)
    ensures !Less(a, a)
    decreases |a|
  {
    if |a| > 0 {
      LessIrreflexive(a[1..]);
    }
  }

  lemma {:induction false} LessTransitive(a: Bytes, b: Bytes, c: Bytes)
    requires Less(a, b) && Less(b, c)
    ensures Less(a, c)
    decreases |a|
  {
    if |a| > 0 && a[0] == b[0] && b[0] == c[0] {
      LessTransitive(a[1..], b[1..], c[1..]);
    }
  }

  lemma {:induction false} LessTotal(a: Bytes, b: Bytes)
    ensures a == b || Less(a, b) || Less(b, a)
    decreases |a|
  {
    if |a| > 0 && |b| > 0 && a[0] == b[0] {
      LessTotal(a[1..], b[1..]);
      if a[1..] == b[1..] {
        assert a == [a[0]] + a[1..] && b == [b[0]] + b[1..];
      }
    }
  }

  lemma LessAsymmetric(a: Bytes, b: Bytes)
    ensures !(Less(a, b) && Less(b, a))
  {
    if Less(a, b) && Less(b, a) {
      LessTransitive(a, b, a);
      LessIrreflexive(a);
    }
  }

  /** `a <= b` and `b <= c` give `a <= c`, with `<=` read as "not greater". */
  lemma NotLessTransitive(a: Bytes, b: Bytes, c: Bytes)
    requires !Less(b, a) && !Less(c, b)
    ensures !Less(c, a)
  {
    LessTotal(a, b);
    LessTotal(b, c);
    if a != b && b != c {
      LessTransitive(a, b, c);
      LessAsymmetric(a, c);
    }
  }

  /** The `Pairs` sort order: ascending by token, `Less(i, j)` false for `i < j`. */
  ghost predicate Sorted(ps: seq<Pair>)
  {
    forall i, j | 0 <= i < j < |ps| :: !Less(ps[j].code, ps[i].code)
  }

  /** A credential store as `BasicAuth` keeps it: sorted by token. */
  type Store = ps: seq<Pair> | Sorted(ps) witness []

  /* ----- building the store ----- */

  /** The token an account is recognised by. */
  function Token(a: Account): Bytes
  {
    BasicPrefix + Base64.Encode(a.user + [Colon] + a.password)
  }

  function EncodePair(a: Account): Pair
  {
    Pair(Token(a), a.user)
  }

  /** Tokens name their `user:password` string exactly. */
  lemma TokenInjective(a: Account, b: Account)
    requires Token(a) == Token(b)
    ensures a.user + [Colon] + a.password == b.user + [Colon] + b.password
  {
    var x, y := a.user + [Colon] + a.password, b.user + [Colon] + b.password;
    assert Base64.Encode(x) == Token(a)[|BasicPrefix|..];
    assert Base64.Encode(y) == Token(b)[|BasicPrefix|..];
    Base64.EncodeInjective(x, y);
  }

  /** A token is the scheme tag followed by text that decodes back to
      exactly `user:password`. */
  lemma TokenDecodes(a: Account)
    ensures Token(a)[..|BasicPrefix|] == BasicPrefix
    ensures Base64.Decode(Token(a)[|BasicPrefix|..]) == Some(a.user + [Colon] + a.password)
  {
    var x := a.user + [Colon] + a.password;
    assert Token(a)[|BasicPrefix|..] == Base64.Encode(x);
    Base64.DecodeEncode(x);
  }

  /** The token does not separate user from password: `("a:b", "c")` and
      `("a", "b:c")` share one token, so a user name with `:` can make a
      lookup answer with another account's user. */
  lemma ColonInUserCollides()
    ensures var x, y := Account([97, 58, 98], [99]), Account([97], [98, 58, 99]);
      Token(x) == Token(y) && x.user != y.user
  {
    var x, y := Account([97, 58, 98], [99]), Account([97], [98, 58, 99]);
    assert x.user + [Colon] + x.password == y.user + [Colon] + y.password;
    assert |x.user| != |y.user|;
  }

  predicate ValidAccount(a: Account)
  {
    |a.user| > 0 && |a.password| > 0
  }

  /** The loop of `processCredentials`: one pair per account in order, or the
      empty-field error as soon as one account has an empty user or password. */
  function EncodeAll(accounts: seq<Account>): (r: Result<seq<Pair>, string>)
    ensures r.Success? <==> forall k | 0 <= k < |accounts| :: ValidAccount(accounts[k])
    ensures r.Failure? ==> r.error == EmptyFieldError
    ensures r.Success? ==> |r.value| == |accounts|
    ensures r.Success? ==>
      forall k | 0 <= k < |accounts| :: r.value[k] == Pair(Token(accounts[k]), accounts[k].user)
    decreases |accounts|
  {
    if accounts == [] then Success([])
    else if !ValidAccount(accounts[0]) then Failure(EmptyFieldError)
    else match EncodeAll(accounts[1..])
      case Failure(e) => Failure(e)
      case Success(rest) => Success([EncodePair(accounts[0])] + rest)
  }

  /** Place `p` before the first entry whose token is not smaller. */
  function Insert(p: Pair, ps: seq<Pair>): (r: seq<Pair>)
    requires Sorted(ps)
    ensures Sorted(r)
    ensures multiset(r) == multiset(ps) + multiset{p}
    decreases |ps|
  {
    if ps == [] || !Less(ps[0].code, p.code) then
      var r := [p] + ps;
      assert Sorted(r) by {
        forall i, j | 0 <= i < j < |r|
          ensures !Less(r[j].code, r[i].code)
        {
          if i == 0 && j > 1 {
            NotLessTransitive(p.code, ps[0].code, ps[j - 1].code);
          }
        }
      }
      r
    else
      var rest := Insert(p, ps[1..]);
      assert ps == [ps[0]] + ps[1..];
      var r := [ps[0]] + rest;
      assert Sorted(r) by {
        forall j | 0 < j < |r|
          ensures !Less(r[j].code, ps[0].code)
        {
          assert r[j] in multiset(rest);
          if r[j] == p {
            LessAsymmetric(ps[0].code, p.code);
          } else {
            assert r[j] in ps[1..];
            var k :| 0 <= k < |ps[1..]| && ps[1..][k] == r[j];
            assert ps[k + 1] == r[j];
          }
        }
      }
      r
  }

  /** `sort.Sort(pairs)`: an ascending permutation of the input. */
  function SortByCode(ps: seq<Pair>): (r: seq<Pair>)
    ensures Sorted(r)
    ensures multiset(r) == multiset(ps)
    ensures |r| == |ps|
    decreases |ps|
  {
    if ps == [] then []
    else
      assert ps == [ps[0]] + ps[1..];
      Insert(ps[0], SortByCode(ps[1..]))
  }

  /** `processCredentials`: refuse an empty account list or an account with
      an empty field; otherwise one encoded pair per account, sorted. */
  function ProcessCredentials(accounts: seq<Account>): (r: Result<seq<Pair>, string>)
    ensures |accounts| == 0 ==> r == Failure(EmptyListError)
    ensures r.Success? <==> |accounts| > 0 && forall k | 0 <= k < |accounts| :: ValidAccount(accounts[k])
    ensures |accounts| > 0 && r.Failure? ==> r.error == EmptyFieldError
    ensures r.Success? ==>
      && Sorted(r.value)
      && |r.value| == |accounts|
      && multiset(r.value) == multiset(seq(|accounts|, k requires 0 <= k < |accounts| => EncodePair(accounts[k])))
  {
    if |accounts| == 0 then Failure(EmptyListError)
    else match EncodeAll(accounts)
      case Failure(e) => Failure(e)
      case Success(ps) =>
        assert ps == seq(|accounts|, k requires 0 <= k < |accounts| => EncodePair(accounts[k]));
        Success(SortByCode(ps))
  }

  /* ----- searching the store ----- */

  /** The loop of `sort.Search(n, f)` with `f(i) = pairs[i].Code >= auth`:
      `[i, j)` is the window still undecided. */
  function SearchWindow(ps: seq<Pair>, auth: Bytes, i: nat, j: nat): (r: nat)
    requires Sorted(ps)
    requires i <= j <= |ps|
    requires forall k | 0 <= k < i :: Less(ps[k].code, auth)
    requires forall k | j <= k < |ps| :: !Less(ps[k].code, auth)
    ensures i <= r <= j
    ensures forall k | 0 <= k < r :: Less(ps[k].code, auth)
    ensures forall k | r <= k < |ps| :: !Less(ps[k].code, auth)
    decreases j - i
  {
    if i < j then
      var h := (i + j) / 2;
      if Less(ps[h].code, auth) then
        assert forall k | 0 <= k <= h :: Less(ps[k].code, auth) by {
          forall k | 0 <= k < h
            ensures Less(ps[k].code, auth)
          {
            LessTotal(ps[k].code, ps[h].code);
            if ps[k].code != ps[h].code {
              LessTransitive(ps[k].code, ps[h].code, auth);
            }
          }
        }
        SearchWindow(ps, auth, h + 1, j)
      else
        assert forall k | h <= k < |ps| :: !Less(ps[k].code, auth) by {
          forall k | h < k < |ps|
            ensures !Less(ps[k].code, auth)
          {
            NotLessTransitive(auth, ps[h].code, ps[k].code);
          }
        }
        SearchWindow(ps, auth, i, h)
    else
      i
  }

  /** The lower bound of `auth`: the smallest index whose token is not
      smaller than `auth`, or `|ps|` when every token is smaller. */
  function LowerBound(ps: seq<Pair>, auth: Bytes): (r: nat)
    requires Sorted(ps)
    ensures r <= |ps|
    ensures forall k | 0 <= k < r :: Less(ps[k].code, auth)
    ensures r < |ps| ==> !Less(ps[r].code, auth)
  {
    SearchWindow(ps, auth, 0, |ps|)
  }

  function Codes(ps: seq<Pair>): set<Bytes>
  {
    set p | p in ps :: p.code
  }

  /** In a sorted store, the lower bound of a present token holds that token. */
  lemma LowerBoundHit(ps: seq<Pair>, auth: Bytes)
    requires Sorted(ps)
    ensures auth in Codes(ps) ==> LowerBound(ps, auth) < |ps| && ps[LowerBound(ps, auth)].code == auth
  {
    if auth in Codes(ps) {
      var r := LowerBound(ps, auth);
      var k :| 0 <= k < |ps| && ps[k].code == auth;
      LessIrreflexive(auth);
      if r < k {
        LessTotal(ps[r].code, auth);
        LessAsymmetric(ps[r].code, auth);
      }
    }
  }

  /** `searchCredential`: the user whose token equals `auth`, or the empty
      string when `auth` is empty or no token equals it. */
  function SearchCredential(ps: seq<Pair>, auth: Bytes): (user: Bytes)
    requires Sorted(ps)
    ensures |auth| == 0 ==> user == []
    ensures |user| > 0 ==> Pair(auth, user) in ps
    ensures |auth| > 0 && auth in Codes(ps) ==> Pair(auth, user) in ps
  {
    if |auth| == 0 then []
    else
      var r := LowerBound(ps, auth);
      LowerBoundHit(ps, auth);
      if r < |ps| && ps[r].code == auth then ps[r].user else []
  }

  /* ----- what lookups return for configured accounts ----- */

  ghost predicate NoColon(user: Bytes)
  {
    forall k | 0 <= k < |user| :: user[k] != Colon
  }

  /** Position of the first colon in `s`, or `|s|` when there is none. */
  function FirstColon(s: Bytes): (n: nat)
    ensures n <= |s|
    decreases |s|
  {
    if |s| == 0 then 0
    else if s[0] == Colon then 0
    else 1 + FirstColon(s[1..])
  }

  lemma {:induction false} FirstColonAfterUser(u: Bytes, p: Bytes)
    requires NoColon(u)
    ensures FirstColon(u + [Colon] + p) == |u|
    decreases |u|
  {
    if |u| > 0 {
      assert (u + [Colon] + p)[1..] == u[1..] + [Colon] + p;
      FirstColonAfterUser(u[1..], p);
    }
  }

  /** `user ":" password` determines the user when the user has no colon. */
  lemma SplitAtFirstColon(u1: Bytes, p1: Bytes, u2: Bytes, p2: Bytes)
    requires NoColon(u1) && NoColon(u2)
    requires u1 + [Colon] + p1 == u2 + [Colon] + p2
    ensures u1 == u2
  {
    var s := u1 + [Colon] + p1;
    FirstColonAfterUser(u1, p1);
    FirstColonAfterUser(u2, p2);
    assert u1 == s[..|u1|] == u2;
  }

  /** The store holds exactly the encoded accounts: each entry is some
      account's pair, and each account's pair is an entry. */
  lemma StoreEntries(accounts: seq<Account>, ps: seq<Pair>)
    requires ProcessCredentials(accounts) == Success(ps)
    ensures forall p | p in ps :: exists b | b in accounts :: p == EncodePair(b) && ValidAccount(b)
    ensures forall b | b in accounts :: EncodePair(b) in ps
  {
    var encoded := seq(|accounts|, k requires 0 <= k < |accounts| => EncodePair(accounts[k]));
    assert multiset(ps) == multiset(encoded);
    forall p | p in ps
      ensures exists b | b in accounts :: p == EncodePair(b) && ValidAccount(b)
    {
      assert p in multiset(encoded);
      var m :| 0 <= m < |encoded| && encoded[m] == p;
      assert accounts[m] in accounts;
    }
    forall b | b in accounts
      ensures EncodePair(b) in ps
    {
      var m :| 0 <= m < |accounts| && accounts[m] == b;
      assert encoded[m] in multiset(encoded);
    }
  }

  /** Looking up an account's own token in the store built from a list that
      contains it finds a user whose account has exactly that token. */
  lemma LookupFindsMatchingAccount(accounts: seq<Account>, ps: seq<Pair>, a: Account)
    requires ProcessCredentials(accounts) == Success(ps)
    requires a in accounts
    ensures Sorted(ps)
    ensures var user := SearchCredential(ps, Token(a));
      |user| > 0 && exists b | b in accounts :: Token(b) == Token(a) && b.user == user
  {
    StoreEntries(accounts, ps);
    assert EncodePair(a) in ps;
    assert Token(a) in Codes(ps);
    var user := SearchCredential(ps, Token(a));
    assert Pair(Token(a), user) in ps;
  }

  /** Round trip: when no configured user name contains a colon (section 2 of
      RFC 7617 forbids it, the code does not check it), an account's token
      looks up that account's user. */
  lemma LookupRoundTrip(accounts: seq<Account>, ps: seq<Pair>, a: Account)
    requires ProcessCredentials(accounts) == Success(ps)
    requires a in accounts
    requires forall b | b in accounts :: NoColon(b.user)
    ensures Sorted(ps)
    ensures SearchCredential(ps, Token(a)) == a.user
  {
    LookupFindsMatchingAccount(accounts, ps, a);
    var b :| b in accounts && Token(b) == Token(a) && b.user == SearchCredential(ps, Token(a));
    TokenInjective(a, b);
    SplitAtFirstColon(a.user, a.password, b.user, b.password);
  }

  /** A presented value that is no configured token is refused. */
  lemma LookupRejectsUnknown(accounts: seq<Account>, ps: seq<Pair>, auth: Bytes)
    requires ProcessCredentials(accounts) == Success(ps)
    requires forall b | b in accounts :: Token(b) != auth
    ensures Sorted(ps)
    ensures SearchCredential(ps, auth) == []
  {
    StoreEntries(accounts, ps);
    assert auth !in Codes(ps);
  }
}

/** The request executor and the session logic as functions of the client's
    state: `executeQuery` (one delayed call), `query` (three attempts with a
    linear back-off, then a re-login and one last attempt) and `logIn` (token
    issuance, then authorisation). `query` and `logIn` call each other without
    bound; `fuel` bounds the depth of that recursion, and `OutOfFuel` is what
    a call that would nest deeper than the bound yields. */
module Executor {
  import opened Js
  import opened Http

  const TokenUrl := "/account/authentication/v1/token/new"
  const AuthorizeUrl := "/account/authentication/v1/authenticate"
  const MaxAttempts: nat := 3
  const BackoffStep: nat := 5000

  /** What a query sends as its body: nothing, a fixed object, or the session's
      credential object `auth`, which is passed by reference and so is read
      anew at every attempt. */
  datatype Body = NoBody | Fixed(fields: map<string, Value>) | Credentials

  /** Everything a query can read or change: the credential object `auth`,
      the stashed `password`, and the transport (replies still to come, exchanges so far). */
  datatype World = World(auth: map<string, Value>, password: Option<Value>, script: seq<Reply>, log: seq<Exchange>)

  /** A settled query: resolved with a response, resolved with `null`, or rejected. */
  datatype Outcome = Resolved(reply: Reply) | ResolvedNull | Rejected | OutOfFuel
  datatype LoginOutcome = Returned(ok: bool) | Threw | LoginOutOfFuel

  datatype Sent = Sent(reply: Reply, world: World)
  datatype Run = Run(outcome: Outcome, world: World)
  datatype LoginRun = LoginRun(outcome: LoginOutcome, world: World)

  function Payload(b: Body, auth: map<string, Value>): Option<map<string, Value>>
  {
    match b
    case NoBody => None
    case Fixed(f) => Some(f)
    case Credentials => Some(auth)
  }

  /** `executeQuery`: one network call fired after `delay` milliseconds. */
  function Send(w: World, url: string, m: Method, b: Body, delay: nat): Sent
  {
    var req := Request(url, m, Payload(b, w.auth), delay);
    var rep := Next(w.script);
    Sent(rep, w.(script := Rest(w.script), log := w.log + [Exchange(req, rep)]))
  }

  predicate HasToken(auth: map<string, Value>)
  {
    Truthy(Field(auth, "authToken"))
  }

  /** `query` from attempt `count` on. */
  function Retry(count: nat, fuel: nat, url: string, m: Method, b: Body, w: World): Run
    requires count <= MaxAttempts
    decreases fuel, 1, MaxAttempts + 1 - count
  {
    if count < MaxAttempts then
      var s := Send(w, url, m, b, count * BackoffStep);
      if IsSuccess(s.reply) then Run(Resolved(s.reply), s.world)
      else Retry(count + 1, fuel, url, m, b, s.world)
    else Exhausted(fuel, url, m, b, w)
  }

  /** `query` once its three attempts have failed: `logIn`, then one last attempt without delay. */
  function Exhausted(fuel: nat, url: string, m: Method, b: Body, w: World): Run
    decreases fuel, 1, 0
  {
    if fuel == 0 then Run(OutOfFuel, w)
    else
      var l := LogIn(fuel - 1, w);
      match l.outcome
      case Returned(ok) =>
        if ok then
          var s := Send(l.world, url, m, b, 0);
          Run(if IsSuccess(s.reply) then Resolved(s.reply) else Rejected, s.world)
        else Run(ResolvedNull, l.world)
      case Threw => Run(Rejected, l.world)
      case LoginOutOfFuel => Run(OutOfFuel, l.world)
  }

  function Query(fuel: nat, url: string, m: Method, b: Body, w: World): Run
  {
    Retry(0, fuel, url, m, b, w)
  }

  /** `response.data.body.authToken` of the token response. */
  function TokenOf(r: Reply): Access
  {
    match Member(DataOf(r), "body")
    case TypeError => TypeError
    case Found(body) => Member(body, "authToken")
  }

  /** Stores the issued token in `auth`, stashes the password on the client and deletes it from `auth`. */
  function StoreToken(w: World, token: Option<Value>): (r: World)
    ensures "password" !in r.auth && Field(r.auth, "authToken") == token
    ensures r.password == Field(w.auth, "password")
    ensures forall k :: k in w.auth && k != "password" && k != "authToken" ==> k in r.auth && r.auth[k] == w.auth[k]
    ensures forall k :: k in r.auth && k != "authToken" ==> k in w.auth
    ensures r.script == w.script && r.log == w.log
  {
    var a := Assign(w.auth, "authToken", token);
    w.(auth := a - {"password"}, password := Field(a, "password"))
  }

  /** `logIn`. */
  function LogIn(fuel: nat, w: World): LoginRun
    decreases fuel, 3, 0
  {
    if !HasToken(w.auth) then
      var q := Retry(0, fuel, TokenUrl, Post, Credentials, w);
      match q.outcome
      case Resolved(rep) =>
        (match TokenOf(rep)
         case TypeError => LoginRun(Threw, q.world)
         case Found(token) => Authorize(fuel, StoreToken(q.world, token)))
      case ResolvedNull => LoginRun(Returned(false), q.world)
      case Rejected => LoginRun(Threw, q.world)
      case OutOfFuel => LoginRun(LoginOutOfFuel, q.world)
    else Authorize(fuel, w)
  }

  /** The authorise step that ends `logIn`. */
  function Authorize(fuel: nat, w: World): LoginRun
    decreases fuel, 2, 0
  {
    var q := Retry(0, fuel, AuthorizeUrl, Post, Credentials, w);
    match q.outcome
    case Resolved(rep) => LoginRun(Returned(rep.Response? && rep.status == 200), q.world)
    case ResolvedNull => LoginRun(Returned(false), q.world)
    case Rejected => LoginRun(Threw, q.world)
    case OutOfFuel => LoginRun(LoginOutOfFuel, q.world)
  }

  // ---------------------------------------------------------------------------
  // The first attempts in closed form

  /** The next `k` replies of a script; a script that runs out answers with network errors. */
  function Replies(script: seq<Reply>, k: nat): (rs: seq<Reply>)
    ensures |rs| == k
  {
    if k == 0 then [] else [Next(script)] + Replies(Rest(script), k - 1)
  }

  function Skip(script: seq<Reply>, k: nat): seq<Reply>
  {
    if k == 0 then script else Skip(Rest(script), k - 1)
  }

  /** The position of the first success among the next `n` replies, or `n` if there is none. */
  function FirstSuccess(script: seq<Reply>, n: nat): nat
  {
    if n == 0 then 0
    else if IsSuccess(Next(script)) then 0
    else 1 + FirstSuccess(Rest(script), n - 1)
  }

  lemma {:induction false} FirstSuccessIsFirst(script: seq<Reply>, n: nat)
    ensures var i := FirstSuccess(script, n);
            && i <= n
            && (i < n ==> IsSuccess(Replies(script, n)[i]))
            && forall j :: 0 <= j < i ==> !IsSuccess(Replies(script, n)[j])
  {
    if n > 0 && !IsSuccess(Next(script)) {
      FirstSuccessIsFirst(Rest(script), n - 1);
      var rs := Replies(Rest(script), n - 1);
      assert Replies(script, n) == [Next(script)] + rs;
      forall j | 0 < j < FirstSuccess(script, n)
        ensures !IsSuccess(Replies(script, n)[j])
      {
        assert Replies(script, n)[j] == rs[j - 1];
      }
    }
  }

  /** The exchanges of attempts `first`, `first + 1`, ...: attempt `k` waits `k * 5000` ms. */
  function Backoff(url: string, m: Method, p: Option<map<string, Value>>, first: nat, rs: seq<Reply>): seq<Exchange>
    decreases rs
  {
    if rs == [] then []
    else [Exchange(Request(url, m, p, first * BackoffStep), rs[0])] + Backoff(url, m, p, first + 1, rs[1..])
  }

  /** The state after `k` attempts numbered from `first`: the transport has answered
      `k` of them and logged each with its back-off delay. */
  function Attempted(url: string, m: Method, b: Body, first: nat, w: World, k: nat): World
  {
    w.(script := Skip(w.script, k),
       log := w.log + Backoff(url, m, Payload(b, w.auth), first, Replies(w.script, k)))
  }

  lemma AttemptedNone(url: string, m: Method, b: Body, first: nat, w: World)
    ensures Attempted(url, m, b, first, w, 0) == w
  {
    assert w.log + [] == w.log;
  }

  lemma AttemptedStep(url: string, m: Method, b: Body, first: nat, w: World, k: nat)
    ensures Attempted(url, m, b, first, w, k + 1)
         == Attempted(url, m, b, first + 1, Send(w, url, m, b, first * BackoffStep).world, k)
  {
    var p := Payload(b, w.auth);
    var e := Exchange(Request(url, m, p, first * BackoffStep), Next(w.script));
    var rs := Replies(Rest(w.script), k);
    assert Replies(w.script, k + 1) == [Next(w.script)] + rs;
    assert ([Next(w.script)] + rs)[1..] == rs;
    assert Backoff(url, m, p, first, [Next(w.script)] + rs) == [e] + Backoff(url, m, p, first + 1, rs);
    assert (w.log + [e]) + Backoff(url, m, p, first + 1, rs) == w.log + ([e] + Backoff(url, m, p, first + 1, rs));
  }

  /** The attempts from `count` on stop at the first 200 reply or after the third
      attempt; attempt `k` is delayed `k * 5000` ms; nothing but the transport changes. */
  ghost predicate TraceHolds(count: nat, fuel: nat, url: string, m: Method, b: Body, w: World)
    requires count <= MaxAttempts
  {
    var n := MaxAttempts - count;
    var i := FirstSuccess(w.script, n);
    Retry(count, fuel, url, m, b, w) ==
      if i < n then Run(Resolved(Replies(w.script, n)[i]), Attempted(url, m, b, count, w, i + 1))
      else Exhausted(fuel, url, m, b, Attempted(url, m, b, count, w, n))
  }

  lemma {:induction false} RetryTrace(count: nat, fuel: nat, url: string, m: Method, b: Body, w: World)
    requires count <= MaxAttempts
    ensures TraceHolds(count, fuel, url, m, b, w)
    decreases MaxAttempts - count
  {
    if count < MaxAttempts {
      var s := Send(w, url, m, b, count * BackoffStep);
      if IsSuccess(s.reply) {
        AttemptedStep(url, m, b, count, w, 0);
        AttemptedNone(url, m, b, count + 1, s.world);
      } else {
        RetryTrace(count + 1, fuel, url, m, b, s.world);
        TraceStep(count, fuel, url, m, b, w);
      }
    } else {
      AttemptedNone(url, m, b, count, w);
    }
  }

  /** A failed attempt hands the rest of the trace on to the next attempt. */
  lemma TraceStep(count: nat, fuel: nat, url: string, m: Method, b: Body, w: World)
    requires count < MaxAttempts && !IsSuccess(Next(w.script))
    requires TraceHolds(count + 1, fuel, url, m, b, Send(w, url, m, b, count * BackoffStep).world)
    ensures TraceHolds(count, fuel, url, m, b, w)
  {
    var n := MaxAttempts - count;
    var i' := FirstSuccess(Rest(w.script), n - 1);
    assert FirstSuccess(w.script, n) == i' + 1;
    if i' < n - 1 {
      AttemptedStep(url, m, b, count, w, i' + 1);
      assert Replies(w.script, n)[i' + 1] == Replies(Rest(w.script), n - 1)[i'];
    } else {
      AttemptedStep(url, m, b, count, w, n - 1);
    }
  }

  // ---------------------------------------------------------------------------
  // How the transport log grows

  /** What a property of the exchanges sent by a call may demand of each of them. */
  datatype Guard = AnyExchange | ToUrls(urls: set<string>) | WithoutPassword

  predicate NoPassword(p: Option<map<string, Value>>)
  {
    p.None? || "password" !in p.value
  }

  predicate Allows(g: Guard, e: Exchange)
  {
    match g
    case AnyExchange => true
    case ToUrls(urls) => e.request.url in urls
    case WithoutPassword => NoPassword(e.request.data)
  }

  /** `after` is `before` followed by exchanges that `g` allows. */
  ghost predicate Extends(before: seq<Exchange>, after: seq<Exchange>, g: Guard)
  {
    && |before| <= |after|
    && after[..|before|] == before
    && forall i :: |before| <= i < |after| ==> Allows(g, after[i])
  }

  lemma ExtendsRefl(a: seq<Exchange>, g: Guard)
    ensures Extends(a, a, g)
  {
    assert a[..|a|] == a;
  }

  lemma ExtendsTrans(a: seq<Exchange>, b: seq<Exchange>, c: seq<Exchange>, g: Guard)
    requires Extends(a, b, g) && Extends(b, c, g)
    ensures Extends(a, c, g)
  {
    assert c[..|a|] == c[..|b|][..|a|];
    forall i | |a| <= i < |c|
      ensures Allows(g, c[i])
    {
      if i < |b| {
        assert c[i] == c[..|b|][i];
      }
    }
  }

  lemma ExtendsWiden(a: seq<Exchange>, b: seq<Exchange>, u: set<string>, v: set<string>)
    requires Extends(a, b, ToUrls(u)) && u <= v
    ensures Extends(a, b, ToUrls(v))
  {
  }

  lemma SendExtends(w: World, url: string, m: Method, b: Body, delay: nat, g: Guard)
    requires Allows(g, Exchange(Request(url, m, Payload(b, w.auth), delay), Next(w.script)))
    ensures Extends(w.log, Send(w, url, m, b, delay).world.log, g)
  {
    var l := Send(w, url, m, b, delay).world.log;
    assert l[..|w.log|] == w.log;
  }

  // ---------------------------------------------------------------------------
  // What a query can settle to

  /** A query never resolves to `null`, only to a response with status 200 (the
      last exchange it logged), and it only appends to the log. */
  lemma {:induction false} RetryShape(count: nat, fuel: nat, url: string, m: Method, b: Body, w: World)
    requires count <= MaxAttempts
    ensures var r := Retry(count, fuel, url, m, b, w);
            && r.outcome != ResolvedNull
            && Extends(w.log, r.world.log, AnyExchange)
            && (r.outcome.Resolved? ==>
                  && IsSuccess(r.outcome.reply)
                  && |r.world.log| > 0
                  && r.world.log[|r.world.log| - 1].request.url == url
                  && r.world.log[|r.world.log| - 1].reply == r.outcome.reply)
    decreases fuel, 1, MaxAttempts + 1 - count
  {
    if count < MaxAttempts {
      var s := Send(w, url, m, b, count * BackoffStep);
      SendExtends(w, url, m, b, count * BackoffStep, AnyExchange);
      if !IsSuccess(s.reply) {
        RetryShape(count + 1, fuel, url, m, b, s.world);
        ExtendsTrans(w.log, s.world.log, Retry(count + 1, fuel, url, m, b, s.world).world.log, AnyExchange);
      }
    } else {
      ExhaustedShape(fuel, url, m, b, w);
    }
  }

  lemma {:induction false} ExhaustedShape(fuel: nat, url: string, m: Method, b: Body, w: World)
    ensures var r := Exhausted(fuel, url, m, b, w);
            && r.outcome != ResolvedNull
            && Extends(w.log, r.world.log, AnyExchange)
            && (r.outcome.Resolved? ==>
                  && IsSuccess(r.outcome.reply)
                  && |r.world.log| > 0
                  && r.world.log[|r.world.log| - 1].request.url == url
                  && r.world.log[|r.world.log| - 1].reply == r.outcome.reply)
    decreases fuel, 1, 0
  {
    if fuel == 0 {
      ExtendsRefl(w.log, AnyExchange);
    } else {
      var l := LogIn(fuel - 1, w);
      LogInShape(fuel - 1, w);
      if l.outcome == Returned(true) {
        SendExtends(l.world, url, m, b, 0, AnyExchange);
        ExtendsTrans(w.log, l.world.log, Send(l.world, url, m, b, 0).world.log, AnyExchange);
      }
    }
  }

  /** `logIn` never returns false: when it returns at all, it returns true,
      right after a 200 reply from the authorise endpoint. */
  lemma {:induction false} LogInShape(fuel: nat, w: World)
    ensures var r := LogIn(fuel, w);
            && r.outcome != Returned(false)
            && Extends(w.log, r.world.log, AnyExchange)
            && (r.outcome.Returned? ==>
                  && |r.world.log| > 0
                  && r.world.log[|r.world.log| - 1].request.url == AuthorizeUrl
                  && IsSuccess(r.world.log[|r.world.log| - 1].reply))
    decreases fuel, 3, 0
  {
    if !HasToken(w.auth) {
      var q := Retry(0, fuel, TokenUrl, Post, Credentials, w);
      RetryShape(0, fuel, TokenUrl, Post, Credentials, w);
      if q.outcome.Resolved? && TokenOf(q.outcome.reply).Found? {
        var w' := StoreToken(q.world, TokenOf(q.outcome.reply).v);
        AuthorizeShape(fuel, w');
        ExtendsTrans(w.log, w'.log, Authorize(fuel, w').world.log, AnyExchange);
      }
    } else {
      AuthorizeShape(fuel, w);
    }
  }

  lemma {:induction false} AuthorizeShape(fuel: nat, w: World)
    ensures var r := Authorize(fuel, w);
            && r.outcome != Returned(false)
            && Extends(w.log, r.world.log, AnyExchange)
            && (r.outcome.Returned? ==>
                  && |r.world.log| > 0
                  && r.world.log[|r.world.log| - 1].request.url == AuthorizeUrl
                  && IsSuccess(r.world.log[|r.world.log| - 1].reply))
    decreases fuel, 2, 0
  {
    RetryShape(0, fuel, AuthorizeUrl, Post, Credentials, w);
  }

  /** After three failed attempts (delayed 0, 5000 and 10000 ms) `query` calls
      `logIn` once; when it returns true exactly one more attempt follows, without
      delay, and decides the outcome; otherwise the query rejects. It never yields `null`. */
  lemma QueryAfterLogin(fuel: nat, url: string, m: Method, b: Body, w: World)
    requires fuel > 0
    requires FirstSuccess(w.script, MaxAttempts) == MaxAttempts
    ensures var w3 := Attempted(url, m, b, 0, w, MaxAttempts);
            var l := LogIn(fuel - 1, w3);
            var r := Query(fuel, url, m, b, w);
            && (l.outcome == Returned(true) ==>
                  var last := Exchange(Request(url, m, Payload(b, l.world.auth), 0), Next(l.world.script));
                  && r.world.log == l.world.log + [last]
                  && r.outcome == (if IsSuccess(last.reply) then Resolved(last.reply) else Rejected))
            && (l.outcome != Returned(true) ==> r.world == l.world && r.outcome in {Rejected, OutOfFuel})
  {
    RetryTrace(0, fuel, url, m, b, w);
    var w3 := Attempted(url, m, b, 0, w, MaxAttempts);
    LogInShape(fuel - 1, w3);
  }

  /** A query that gets a 200 reply within its first three attempts resolves with
      it and touches nothing but the transport; attempt `j` waited `j * 5000` ms. */
  lemma QueryWithinAttempts(fuel: nat, url: string, m: Method, b: Body, w: World)
    requires FirstSuccess(w.script, MaxAttempts) < MaxAttempts
    ensures var i := FirstSuccess(w.script, MaxAttempts);
            var r := Query(fuel, url, m, b, w);
            && r.outcome == Resolved(Replies(w.script, MaxAttempts)[i])
            && IsSuccess(r.outcome.reply)
            && (forall j :: 0 <= j < i ==> !IsSuccess(Replies(w.script, MaxAttempts)[j]))
            && r.world == Attempted(url, m, b, 0, w, i + 1)
            && r.world.auth == w.auth && r.world.password == w.password
  {
    RetryTrace(0, fuel, url, m, b, w);
    FirstSuccessIsFirst(w.script, MaxAttempts);
  }

  // ---------------------------------------------------------------------------
  // The session: token issuance and the password

  /** With a token held, a query leaves the credentials alone and sends nothing
      but its own attempts and authorise requests: no new token is requested. */
  lemma {:induction false} RetryKeepsToken(count: nat, fuel: nat, url: string, m: Method, b: Body, w: World)
    requires count <= MaxAttempts && HasToken(w.auth)
    ensures var r := Retry(count, fuel, url, m, b, w);
            && r.world.auth == w.auth && r.world.password == w.password
            && Extends(w.log, r.world.log, ToUrls({url, AuthorizeUrl}))
    decreases fuel, 1, MaxAttempts + 1 - count
  {
    var g := ToUrls({url, AuthorizeUrl});
    if count < MaxAttempts {
      var s := Send(w, url, m, b, count * BackoffStep);
      SendExtends(w, url, m, b, count * BackoffStep, g);
      if !IsSuccess(s.reply) {
        RetryKeepsToken(count + 1, fuel, url, m, b, s.world);
        ExtendsTrans(w.log, s.world.log, Retry(count + 1, fuel, url, m, b, s.world).world.log, g);
      }
    } else {
      ExhaustedKeepsToken(fuel, url, m, b, w);
    }
  }

  lemma {:induction false} ExhaustedKeepsToken(fuel: nat, url: string, m: Method, b: Body, w: World)
    requires HasToken(w.auth)
    ensures var r := Exhausted(fuel, url, m, b, w);
            && r.world.auth == w.auth && r.world.password == w.password
            && Extends(w.log, r.world.log, ToUrls({url, AuthorizeUrl}))
    decreases fuel, 1, 0
  {
    var g := ToUrls({url, AuthorizeUrl});
    if fuel == 0 {
      ExtendsRefl(w.log, g);
    } else {
      var l := LogIn(fuel - 1, w);
      LogInKeepsToken(fuel - 1, w);
      ExtendsWiden(w.log, l.world.log, {AuthorizeUrl}, {url, AuthorizeUrl});
      if l.outcome == Returned(true) {
        SendExtends(l.world, url, m, b, 0, g);
        ExtendsTrans(w.log, l.world.log, Send(l.world, url, m, b, 0).world.log, g);
      }
    }
  }

  /** With a token held, `logIn` only re-authenticates: every request it sends goes
      to the authorise endpoint, and the credentials stay as they were. */
  lemma {:induction false} LogInKeepsToken(fuel: nat, w: World)
    requires HasToken(w.auth)
    ensures var r := LogIn(fuel, w);
            && r.world.auth == w.auth && r.world.password == w.password
            && Extends(w.log, r.world.log, ToUrls({AuthorizeUrl}))
    decreases fuel, 3, 0
  {
    RetryKeepsToken(0, fuel, AuthorizeUrl, Post, Credentials, w);
    assert {AuthorizeUrl, AuthorizeUrl} == {AuthorizeUrl};
  }

  /** Once the password is gone from the credentials, a query whose own body holds
      none sends no password and does not bring it back. */
  lemma {:induction false} RetryWithoutPassword(count: nat, fuel: nat, url: string, m: Method, b: Body, w: World)
    requires count <= MaxAttempts
    requires "password" !in w.auth && (b.Fixed? ==> "password" !in b.fields)
    ensures var r := Retry(count, fuel, url, m, b, w);
            "password" !in r.world.auth && Extends(w.log, r.world.log, WithoutPassword)
    decreases fuel, 1, MaxAttempts + 1 - count
  {
    if count < MaxAttempts {
      var s := Send(w, url, m, b, count * BackoffStep);
      SendExtends(w, url, m, b, count * BackoffStep, WithoutPassword);
      if !IsSuccess(s.reply) {
        RetryWithoutPassword(count + 1, fuel, url, m, b, s.world);
        ExtendsTrans(w.log, s.world.log, Retry(count + 1, fuel, url, m, b, s.world).world.log, WithoutPassword);
      }
    } else {
      ExhaustedWithoutPassword(fuel, url, m, b, w);
    }
  }

  lemma {:induction false} ExhaustedWithoutPassword(fuel: nat, url: string, m: Method, b: Body, w: World)
    requires "password" !in w.auth && (b.Fixed? ==> "password" !in b.fields)
    ensures var r := Exhausted(fuel, url, m, b, w);
            "password" !in r.world.auth && Extends(w.log, r.world.log, WithoutPassword)
    decreases fuel, 1, 0
  {
    if fuel == 0 {
      ExtendsRefl(w.log, WithoutPassword);
    } else {
      var l := LogIn(fuel - 1, w);
      LogInWithoutPassword(fuel - 1, w);
      if l.outcome == Returned(true) {
        SendExtends(l.world, url, m, b, 0, WithoutPassword);
        ExtendsTrans(w.log, l.world.log, Send(l.world, url, m, b, 0).world.log, WithoutPassword);
      }
    }
  }

  lemma {:induction false} LogInWithoutPassword(fuel: nat, w: World)
    requires "password" !in w.auth
    ensures var r := LogIn(fuel, w);
            "password" !in r.world.auth && Extends(w.log, r.world.log, WithoutPassword)
    decreases fuel, 3, 0
  {
    var w' := w;
    if !HasToken(w.auth) {
      var q := Retry(0, fuel, TokenUrl, Post, Credentials, w);
      RetryWithoutPassword(0, fuel, TokenUrl, Post, Credentials, w);
      if q.outcome.Resolved? && TokenOf(q.outcome.reply).Found? {
        w' := StoreToken(q.world, TokenOf(q.outcome.reply).v);
        AuthorizeWithoutPassword(fuel, w');
        ExtendsTrans(w.log, w'.log, Authorize(fuel, w').world.log, WithoutPassword);
      }
    } else {
      AuthorizeWithoutPassword(fuel, w);
    }
  }

  lemma {:induction false} AuthorizeWithoutPassword(fuel: nat, w: World)
    requires "password" !in w.auth
    ensures var r := Authorize(fuel, w);
            "password" !in r.world.auth && Extends(w.log, r.world.log, WithoutPassword)
    decreases fuel, 2, 0
  {
    RetryWithoutPassword(0, fuel, AuthorizeUrl, Post, Credentials, w);
  }

  /** Without a token, `logIn` first requests one with the credentials as they
      are; once that request resolves with a token field, the password is deleted
      from the credentials and no later request of this `logIn` carries it. */
  lemma TokenAcquisitionDropsPassword(fuel: nat, w: World)
    requires !HasToken(w.auth)
    ensures var r := LogIn(fuel, w);
            && |r.world.log| > |w.log|
            && r.world.log[|w.log|].request == Request(TokenUrl, Post, Some(w.auth), 0)
    ensures var q := Query(fuel, TokenUrl, Post, Credentials, w);
            var r := LogIn(fuel, w);
            q.outcome.Resolved? && TokenOf(q.outcome.reply).Found? ==>
              && "password" !in r.world.auth
              && Extends(q.world.log, r.world.log, WithoutPassword)
  {
    var q := Retry(0, fuel, TokenUrl, Post, Credentials, w);
    var s := Send(w, TokenUrl, Post, Credentials, 0);
    RetryShape(1, fuel, TokenUrl, Post, Credentials, s.world);
    RetryShape(0, fuel, TokenUrl, Post, Credentials, w);
    assert s.world.log[|w.log|].request == Request(TokenUrl, Post, Some(w.auth), 0);
    if IsSuccess(s.reply) {
      assert q.world == s.world;
    } else {
      assert q == Retry(1, fuel, TokenUrl, Post, Credentials, s.world);
      assert q.world.log[|w.log|] == q.world.log[..|s.world.log|][|w.log|];
    }
    if q.outcome.Resolved? && TokenOf(q.outcome.reply).Found? {
      var w' := StoreToken(q.world, TokenOf(q.outcome.reply).v);
      AuthorizeWithoutPassword(fuel, w');
      AuthorizeShape(fuel, w');
      var a := Authorize(fuel, w');
      assert a.world.log[|w.log|] == a.world.log[..|w'.log|][|w.log|];
    }
  }
}

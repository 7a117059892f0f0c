/** The write-command queue as functions: `enqueueCommand` coalesces a command
    into the pending queue (same URL: replaced where it stands; new URL: appended)
    and arms the drain timer only when none is set; `processQueue` executes the
    head of the queue one command at a time, including commands enqueued while
    it runs, until the queue is empty or a query rejects. */
module CommandQueue {
  import opened Js
  import opened Http
  import Executor

  /** A pending write; its identity is its URL. */
  datatype Command = Command(url: string, verb: Method, data: Option<map<string, Value>>)

  /** The nullable drain timer: no timer, a timer armed but not fired, a drain running. */
  datatype Timer = Idle | Scheduled | Draining

  function Urls(q: seq<Command>): (us: seq<string>)
  {
    seq(|q|, i requires 0 <= i < |q| => q[i].url)
  }

  /** At most one pending command per URL. */
  predicate UniqueUrls(q: seq<Command>)
  {
    forall i, j :: 0 <= i < j < |q| ==> q[i].url != q[j].url
  }

  /** `r` starts with commands for the URLs of `q`, in the same order. */
  predicate KeepsTargets(q: seq<Command>, r: seq<Command>)
  {
    |q| <= |r| && forall j :: 0 <= j < |q| ==> r[j].url == q[j].url
  }

  /** lodash `findIndex` by URL: the first position holding `url`, or -1. */
  function FindIndex(q: seq<Command>, url: string): (r: int)
    ensures -1 <= r < |q|
    ensures r >= 0 ==> q[r].url == url && forall j :: 0 <= j < r ==> q[j].url != url
    ensures r == -1 ==> forall j :: 0 <= j < |q| ==> q[j].url != url
  {
    if q == [] then -1
    else if q[0].url == url then 0
    else
      var r := FindIndex(q[1..], url);
      if r < 0 then -1 else r + 1
  }

  /** The pending queue after `enqueueCommand(c)`: a command for a pending URL
      takes that command's place, any other is appended. */
  function Coalesce(q: seq<Command>, c: Command): (r: seq<Command>)
    ensures c in r
    ensures Urls(r) == if c.url in Urls(q) then Urls(q) else Urls(q) + [c.url]
    ensures forall j :: 0 <= j < |q| && q[j].url != c.url ==> r[j] == q[j]
    ensures KeepsTargets(q, r)
  {
    var i := FindIndex(q, c.url);
    if i >= 0 then
      assert c.url == Urls(q)[i];
      var r := q[i := c];
      assert r[i] == c;
      r
    else
      assert c.url !in Urls(q);
      q + [c]
  }

  /** The timer after `enqueueCommand(c)`: a replacement returns before the timer
      is looked at, and an append arms a drain only when no timer is set. */
  function Arm(t: Timer, q: seq<Command>, c: Command): Timer
  {
    if FindIndex(q, c.url) >= 0 then t
    else if t == Idle then Scheduled
    else t
  }

  /** The queue after enqueueing `cs` in order. */
  function Enqueued(q: seq<Command>, cs: seq<Command>): seq<Command>
  {
    if cs == [] then q else Coalesce(Enqueued(q, cs[..|cs| - 1]), cs[|cs| - 1])
  }

  function Rearmed(t: Timer, q: seq<Command>, cs: seq<Command>): Timer
  {
    if cs == [] then t
    else Arm(Rearmed(t, q, cs[..|cs| - 1]), Enqueued(q, cs[..|cs| - 1]), cs[|cs| - 1])
  }

  /** How many of the enqueues of `cs` set a timer. */
  function Arms(t: Timer, q: seq<Command>, cs: seq<Command>): nat
  {
    if cs == [] then 0
    else
      var before := cs[..|cs| - 1];
      var c := cs[|cs| - 1];
      Arms(t, q, before) +
      if Rearmed(t, q, before) == Idle && FindIndex(Enqueued(q, before), c.url) < 0 then 1 else 0
  }

  /** The last command of `cs` addressed to `url`, if any. */
  function LastFor(cs: seq<Command>, url: string): (r: Option<Command>)
    ensures r.Some? ==> r.value.url == url && r.value in cs
    ensures r.None? ==> forall c :: c in cs ==> c.url != url
  {
    if cs == [] then None
    else if cs[|cs| - 1].url == url then Some(cs[|cs| - 1])
    else LastFor(cs[..|cs| - 1], url)
  }

  // ---------------------------------------------------------------------------
  // Coalescing

  /** Replacing keeps every URL at most once in the queue, and leaves `c` as the only command for its URL. */
  lemma CoalesceUnique(q: seq<Command>, c: Command)
    requires UniqueUrls(q)
    ensures var r := Coalesce(q, c);
            && UniqueUrls(r)
            && forall x :: x in r && x.url == c.url ==> x == c
  {
    var r := Coalesce(q, c);
    assert |r| == |Urls(r)|;
    forall i, j | 0 <= i < j < |r|
      ensures r[i].url != r[j].url
    {
      assert Urls(r)[i] == r[i].url && Urls(r)[j] == r[j].url;
      if j < |q| {
        assert Urls(q)[i] == q[i].url && Urls(q)[j] == q[j].url;
      } else {
        assert c.url !in Urls(q) && Urls(q)[i] == q[i].url;
      }
    }
    var i := FindIndex(q, c.url);
    if i >= 0 {
      assert r == q[i := c];
      assert forall j :: 0 <= j < |q| && j != i ==> q[j].url != q[i].url;
    } else {
      assert r == q + [c];
    }
  }

  /** A command for a pending URL takes that entry's place: the length and every
      other entry stay, and no timer is armed. A command for a new URL goes to the
      tail, and arms the timer only when none is set. */
  lemma ReplaceInPlace(t: Timer, q: seq<Command>, c: Command)
    ensures var i := FindIndex(q, c.url);
            var r := Coalesce(q, c);
            && (i >= 0 ==>
                  && |r| == |q| && r[i] == c
                  && (forall j :: 0 <= j < |q| && j != i ==> r[j] == q[j])
                  && Arm(t, q, c) == t)
            && (i < 0 ==> r == q + [c] && Arm(t, q, c) == (if t == Idle then Scheduled else t))
  {
  }

  /** Enqueueing `c` neither adds nor removes commands for other URLs. */
  lemma CoalesceOthers(q: seq<Command>, c: Command, x: Command)
    requires x.url != c.url
    ensures x in Coalesce(q, c) <==> x in q
  {
    var i := FindIndex(q, c.url);
    var r := Coalesce(q, c);
    if i >= 0 {
      assert r == q[i := c];
      if x in q {
        var k :| 0 <= k < |q| && q[k] == x;
        assert r[k] == x;
      }
      if x in r {
        var k :| 0 <= k < |r| && r[k] == x;
        assert q[k] == x;
      }
    } else {
      assert r == q + [c];
    }
  }

  /** Enqueueing keeps the pending URLs in the order of their first enqueue:
      the old queue's URLs stay a prefix, and new URLs come only from `cs`. */
  lemma {:induction false} EnqueuedKeepsOrder(q: seq<Command>, cs: seq<Command>)
    ensures var r := Enqueued(q, cs);
            && KeepsTargets(q, r)
            && forall x :: x in r ==> x in q || x in cs
  {
    if cs != [] {
      var before := cs[..|cs| - 1];
      var c := cs[|cs| - 1];
      var r' := Enqueued(q, before);
      EnqueuedKeepsOrder(q, before);
      var r := Coalesce(r', c);
      forall x | x in r
        ensures x in q || x in cs
      {
        if x.url != c.url {
          CoalesceOthers(r', c, x);
          assert x in r';
          if x in before { assert x in cs; }
        } else if x != c {
          var k :| 0 <= k < |r| && r[k] == x;
          assert k < |r'| && r[k] == r'[k];
          if x in before { assert x in cs; }
        }
      }
    }
  }

  /** Last write wins: after enqueueing `cs` into a queue without duplicates,
      the queue still has none, and the one command pending for a URL that `cs`
      addresses is the last command of `cs` for that URL. */
  lemma {:induction false} LastWriteWins(q: seq<Command>, cs: seq<Command>, url: string)
    requires UniqueUrls(q)
    ensures var r := Enqueued(q, cs);
            && UniqueUrls(r)
            && (LastFor(cs, url).Some? ==>
                  && LastFor(cs, url).value in r
                  && forall x :: x in r && x.url == url ==> x == LastFor(cs, url).value)
            && (LastFor(cs, url).None? ==> forall x: Command :: x.url == url ==> (x in r <==> x in q))
  {
    if cs != [] {
      var before := cs[..|cs| - 1];
      var c := cs[|cs| - 1];
      var r' := Enqueued(q, before);
      var r := Coalesce(r', c);
      assert r == Enqueued(q, cs);
      LastWriteWins(q, before, url);
      CoalesceUnique(r', c);
      if c.url == url {
        assert LastFor(cs, url) == Some(c);
      } else {
        assert LastFor(cs, url) == LastFor(before, url);
        forall x: Command | x.url == url
          ensures x in r <==> x in r'
        {
          CoalesceOthers(r', c, x);
        }
      }
    }
  }

  // ---------------------------------------------------------------------------
  // The drain timer

  /** One drain armed at a time: with the invariant that only an empty queue has
      no timer, a burst of enqueues on an idle queue sets exactly one timer,
      and one on a queue with a timer (scheduled, or a drain running) sets none. */
  lemma {:induction false} ArmsOnce(t: Timer, q: seq<Command>, cs: seq<Command>)
    requires t == Idle ==> q == []
    ensures Arms(t, q, cs) == if t == Idle && cs != [] then 1 else 0
    ensures Rearmed(t, q, cs) == if t == Idle && cs != [] then Scheduled else t
    ensures Enqueued(q, cs) != [] ==> Rearmed(t, q, cs) != Idle
  {
    if cs != [] {
      var before := cs[..|cs| - 1];
      ArmsOnce(t, q, before);
      if t == Idle && before == [] {
        assert Enqueued(q, before) == [];
      }
    }
  }

  // ---------------------------------------------------------------------------
  // The drain

  function Head(arrivals: seq<seq<Command>>): seq<Command>
  {
    if arrivals == [] then [] else arrivals[0]
  }

  function Tail(arrivals: seq<seq<Command>>): seq<seq<Command>>
  {
    if arrivals == [] then [] else arrivals[1..]
  }

  /** The commands a drain issues when every query settles: the head, then the
      drain of what is left once the commands enqueued meanwhile (`arrivals[0]`,
      enqueued while the head's query was in flight) are coalesced into it. */
  function DrainOrder(q: seq<Command>, arrivals: seq<seq<Command>>): seq<Command>
    decreases |arrivals|, |q|
  {
    if q == [] then []
    else [q[0]] + DrainOrder(Enqueued(q[1..], Head(arrivals)), Tail(arrivals))
  }

  /** FIFO: with nothing enqueued during the drain, the commands go out in queue order. */
  lemma {:induction false} DrainOrderFifo(q: seq<Command>)
    ensures DrainOrder(q, []) == q
    decreases |q|
  {
    if q != [] {
      DrainOrderFifo(q[1..]);
    }
  }

  /** Even with commands enqueued mid-drain, the targets pending when the drain
      started go out first, in queue order; later arrivals follow them. */
  lemma {:induction false} DrainOrderKeepsTargets(q: seq<Command>, arrivals: seq<seq<Command>>)
    ensures KeepsTargets(q, DrainOrder(q, arrivals))
    decreases |arrivals|, |q|
  {
    if q != [] {
      var rest := Enqueued(q[1..], Head(arrivals));
      EnqueuedKeepsOrder(q[1..], Head(arrivals));
      DrainOrderKeepsTargets(rest, Tail(arrivals));
      var d := DrainOrder(q, arrivals);
      var d' := DrainOrder(rest, Tail(arrivals));
      assert d == [q[0]] + d';
      forall j | 0 < j < |q|
        ensures d[j].url == q[j].url
      {
        assert d[j] == d'[j - 1] && q[1..][j - 1] == q[j];
      }
    }
  }

  /** How a command's `data` becomes the query's body (`if (data) query.data = data`). */
  function BodyOf(c: Command): Executor.Body
  {
    match c.data
    case None => Executor.NoBody
    case Some(f) => Executor.Fixed(f)
  }

  /** What `processQueue` did: the commands whose query it started, the queue it
      left, whether a rejected query ended it early, and the state after it. */
  datatype DrainRun = DrainRun(issued: seq<Command>, queue: seq<Command>, halted: bool, world: Executor.World)

  /** `processQueue`: the head's query runs (and `arrivals[0]` are enqueued while
      it is in flight); a rejected query ends the drain, anything else continues it. */
  function Drain(fuel: nat, q: seq<Command>, arrivals: seq<seq<Command>>, w: Executor.World): DrainRun
    decreases |arrivals|, |q|
  {
    if q == [] then DrainRun([], [], false, w)
    else
      var r := Executor.Query(fuel, q[0].url, q[0].verb, BodyOf(q[0]), w);
      var rest := Enqueued(q[1..], Head(arrivals));
      if Halts(r.outcome) then DrainRun([q[0]], rest, true, r.world)
      else
        var d := Drain(fuel, rest, Tail(arrivals), r.world);
        DrainRun([q[0]] + d.issued, d.queue, d.halted, d.world)
  }

  /** A query outcome that ends the drain: a rejection (or running out of fuel). */
  predicate Halts(o: Executor.Outcome)
  {
    o.Rejected? || o.OutOfFuel?
  }

  /** One turn of the drain, stated for a drain already `issued` commands into its run:
      the head's query either ends the run or hands the rest on to the next turn. */
  lemma DrainAdvance(fuel: nat, q: seq<Command>, arrivals: seq<seq<Command>>, w: Executor.World,
                     issued: seq<Command>, goal: DrainRun)
    requires q != []
    requires var d := Drain(fuel, q, arrivals, w);
             goal == DrainRun(issued + d.issued, d.queue, d.halted, d.world)
    ensures var r := Executor.Query(fuel, q[0].url, q[0].verb, BodyOf(q[0]), w);
            var rest := Enqueued(q[1..], Head(arrivals));
            && (Halts(r.outcome) ==> goal == DrainRun(issued + [q[0]], rest, true, r.world))
            && (!Halts(r.outcome) ==>
                  var d := Drain(fuel, rest, Tail(arrivals), r.world);
                  goal == DrainRun((issued + [q[0]]) + d.issued, d.queue, d.halted, d.world))
  {
    var r := Executor.Query(fuel, q[0].url, q[0].verb, BodyOf(q[0]), w);
    var rest := Enqueued(q[1..], Head(arrivals));
    if !Halts(r.outcome) {
      var d := Drain(fuel, rest, Tail(arrivals), r.world);
      assert (issued + [q[0]]) + d.issued == issued + ([q[0]] + d.issued);
    }
  }

  /** One query per command, in drain order: a drain that is not halted issues
      exactly `DrainOrder` and leaves the queue empty; one that is halted has
      issued a non-empty prefix of it, ending with the command whose query rejected. */
  lemma {:induction false} DrainFollowsOrder(fuel: nat, q: seq<Command>, arrivals: seq<seq<Command>>, w: Executor.World)
    ensures var d := Drain(fuel, q, arrivals, w);
            var o := DrainOrder(q, arrivals);
            && |d.issued| <= |o| && d.issued == o[..|d.issued|]
            && (!d.halted ==> d.issued == o && d.queue == [])
            && (d.halted ==> d.issued != [])
    decreases |arrivals|, |q|
  {
    if q != [] {
      var r := Executor.Query(fuel, q[0].url, q[0].verb, BodyOf(q[0]), w);
      var rest := Enqueued(q[1..], Head(arrivals));
      if !Halts(r.outcome) {
        DrainFollowsOrder(fuel, rest, Tail(arrivals), r.world);
      }
    }
  }
}

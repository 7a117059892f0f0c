/** The client object, `VRC9xxAPI`: the credential object and stashed password
    that `logIn` updates, the pending command list and the drain timer that
    `enqueueCommand` and `processQueue` update, and the transport every query
    goes through. Each method is proved to do what the functions of `Executor`
    and `CommandQueue` describe, so the properties proved there hold of it. */
module Client {
  import opened Js
  import opened Http
  import opened Executor
  import opened CommandQueue
  import opened Setters

  class Api {
    var auth: map<string, Value>
    var password: Option<Value>
    var commands: seq<Command>
    var timer: Timer
    const net: Transport

    /** `new VRC9xxAPI(data, log)`: `data` becomes the credential object. */
    constructor (data: map<string, Value>, transport: Transport)
      ensures auth == data && password == None && commands == [] && timer == Idle && net == transport
      ensures Valid()
    {
      auth := data;
      password := None;
      commands := [];
      timer := Idle;
      net := transport;
    }

    /** The state a query reads and changes. */
    function World(): Executor.World
      reads this, net
    {
      Executor.World(auth, password, net.script, net.log)
    }

    /** Pending URLs are distinct; a non-empty queue always has a timer set; a
        timer that has not fired yet has something to drain. */
    predicate Valid()
      reads this
    {
      && UniqueUrls(commands)
      && (commands != [] ==> timer != Idle)
      && (timer == Scheduled ==> commands != [])
    }

    /** `executeQuery(query, retry)`: one call after `retry * 5000` ms; it resolves on a 200 reply and rejects on anything else. */
    method ExecuteQuery(url: string, m: Method, b: Body, retry: nat) returns (resolved: bool, reply: Reply)
      modifies net
      ensures var s := Send(old(World()), url, m, b, retry * BackoffStep);
              reply == s.reply && World() == s.world
      ensures resolved <==> IsSuccess(reply)
    {
      reply := net.Send(Request(url, m, Payload(b, auth), retry * BackoffStep));
      resolved := IsSuccess(reply);
    }

    /** `query(url, method, data)`. */
    method Query(fuel: nat, url: string, m: Method, b: Body) returns (outcome: Outcome)
      modifies this`auth, this`password, net
      ensures Run(outcome, World()) == Executor.Query(fuel, url, m, b, old(World()))
      decreases fuel, 1
    {
      var count := 0;
      while count < MaxAttempts
        invariant count <= MaxAttempts
        invariant Retry(count, fuel, url, m, b, World()) == Executor.Query(fuel, url, m, b, old(World()))
      {
        var resolved, reply := ExecuteQuery(url, m, b, count);
        if resolved {
          return Resolved(reply);
        }
        count := count + 1;
      }
      if fuel == 0 {
        return OutOfFuel;
      }
      var result := LogIn(fuel - 1);
      match result
      case Returned(ok) =>
        if ok {
          var resolved, reply := ExecuteQuery(url, m, b, 0);
          outcome := if resolved then Resolved(reply) else Rejected;
        } else {
          outcome := ResolvedNull;
        }
      case Threw =>
        outcome := Rejected;
      case LoginOutOfFuel =>
        outcome := OutOfFuel;
    }

    /** `logIn()`. */
    method LogIn(fuel: nat) returns (outcome: LoginOutcome)
      modifies this`auth, this`password, net
      ensures LoginRun(outcome, World()) == Executor.LogIn(fuel, old(World()))
      decreases fuel, 3
    {
      if !HasToken(auth) {
        var response := Query(fuel, TokenUrl, Post, Credentials);
        match response
        case Resolved(rep) =>
          match TokenOf(rep) {
            case TypeError =>
              return Threw;
            case Found(token) =>
              auth := Assign(auth, "authToken", token);
              password := Field(auth, "password");
              auth := auth - {"password"};
          }
        case ResolvedNull =>
          return Returned(false);
        case Rejected =>
          return Threw;
        case OutOfFuel =>
          return LoginOutOfFuel;
      }
      var resp := Query(fuel, AuthorizeUrl, Post, Credentials);
      match resp
      case Resolved(rep) =>
        outcome := Returned(rep.Response? && rep.status == 200);
      case ResolvedNull =>
        outcome := Returned(false);
      case Rejected =>
        outcome := Threw;
      case OutOfFuel =>
        outcome := LoginOutOfFuel;
    }

    /** `enqueueCommand(command)`. */
    method EnqueueCommand(c: Command)
      requires Valid()
      modifies this`commands, this`timer
      ensures commands == Coalesce(old(commands), c) && timer == Arm(old(timer), old(commands), c)
      ensures Valid()
    {
      CoalesceUnique(commands, c);
      var index := FindIndex(commands, c.url);
      if index >= 0 {
        commands := commands[index := c];
        return;
      }
      commands := commands + [c];
      if timer == Idle {
        timer := Scheduled;
      }
    }

    /** The `enqueueCommand` calls that land while a drain's query is in flight. */
    method EnqueueAll(batch: seq<Command>)
      requires Valid() && timer != Idle
      modifies this`commands, this`timer
      ensures commands == Enqueued(old(commands), batch) && timer == old(timer)
      ensures Valid()
    {
      ghost var start := commands;
      var k := 0;
      while k < |batch|
        invariant k <= |batch| && Valid() && timer == old(timer)
        invariant commands == Enqueued(start, batch[..k])
      {
        assert batch[..k + 1][..k] == batch[..k];
        EnqueueCommand(batch[k]);
        k := k + 1;
      }
      assert batch[..k] == batch;
    }

    /** One turn of the drain loop: shift the head command and run its query,
        while the commands of `batch` are enqueued. */
    method DrainHead(fuel: nat, batch: seq<Command>) returns (command: Command, stop: bool)
      requires Valid() && timer == Draining && commands != []
      modifies this`auth, this`password, this`commands, this`timer, net
      ensures command == old(commands)[0]
      ensures var r := Executor.Query(fuel, command.url, command.verb, BodyOf(command), old(World()));
              && stop == Halts(r.outcome)
              && World() == r.world
      ensures commands == Enqueued(old(commands)[1..], batch)
      ensures Valid() && timer == Draining
    {
      command := commands[0];
      commands := commands[1..];
      var outcome := Query(fuel, command.url, command.verb, BodyOf(command));
      EnqueueAll(batch);
      stop := Halts(outcome);
    }

    /** `processQueue()`, fired by the timer: while the head command's query is in
        flight, the commands of `arrivals[0]` are enqueued, and so on. The drain stops
        with an empty queue and clears the timer, or stops at a query that rejects
        and leaves the timer set. */
    method ProcessQueue(fuel: nat, arrivals: seq<seq<Command>>) returns (issued: seq<Command>, halted: bool)
      requires Valid() && timer == Scheduled
      modifies this`auth, this`password, this`commands, this`timer, net
      ensures var d := Drain(fuel, old(commands), arrivals, old(World()));
              && issued == d.issued && halted == d.halted && commands == d.queue && World() == d.world
              && timer == (if d.halted then Draining else Idle)
      ensures Valid()
    {
      ghost var goal := Drain(fuel, commands, arrivals, World());
      timer := Draining;
      issued := [];
      var pending := arrivals;
      while commands != []
        invariant Valid() && timer == Draining
        invariant var d := Drain(fuel, commands, pending, World());
                  goal == DrainRun(issued + d.issued, d.queue, d.halted, d.world)
        decreases |pending|, |commands|
      {
        DrainAdvance(fuel, commands, pending, World(), issued, goal);
        var command, stop := DrainHead(fuel, Head(pending));
        pending := Tail(pending);
        issued := issued + [command];
        if stop {
          return issued, true;
        }
      }
      assert issued + [] == issued;
      timer := Idle;
      halted := false;
    }

    /** `setTargetTemperature(facilitySerial, zone, temperature)`. */
    method SetTargetTemperature(serial: string, zone: string, temperature: real)
      requires Valid()
      modifies this`commands, this`timer
      ensures var c := TargetTemperature(serial, zone, temperature);
              commands == Coalesce(old(commands), c) && timer == Arm(old(timer), old(commands), c)
      ensures Valid()
    {
      EnqueueCommand(TargetTemperature(serial, zone, temperature));
    }

    /** `setTargetDHWTemperature(facilitySerial, dhw, temperature)`. */
    method SetTargetDhwTemperature(serial: string, dhw: string, temperature: real)
      requires Valid()
      modifies this`commands, this`timer
      ensures var c := TargetDhwTemperature(serial, dhw, temperature);
              commands == Coalesce(old(commands), c) && timer == Arm(old(timer), old(commands), c)
      ensures Valid()
    {
      EnqueueCommand(TargetDhwTemperature(serial, dhw, temperature));
    }

    /** `setTargetReducedTemperature(facilitySerial, zone, temperature)`. */
    method SetTargetReducedTemperature(serial: string, zone: string, temperature: real)
      requires Valid()
      modifies this`commands, this`timer
      ensures var c := TargetReducedTemperature(serial, zone, temperature);
              commands == Coalesce(old(commands), c) && timer == Arm(old(timer), old(commands), c)
      ensures Valid()
    {
      EnqueueCommand(TargetReducedTemperature(serial, zone, temperature));
    }

    /** `setHeatingMode(facilitySerial, zone, mode)`. */
    method SetHeatingMode(serial: string, zone: string, mode: string)
      requires Valid()
      modifies this`commands, this`timer
      ensures var c := HeatingMode(serial, zone, mode);
              commands == Coalesce(old(commands), c) && timer == Arm(old(timer), old(commands), c)
      ensures Valid()
    {
      EnqueueCommand(HeatingMode(serial, zone, mode));
    }

    /** `setDHWOperationMode(facilitySerial, dhw, mode)`. */
    method SetDhwOperationMode(serial: string, dhw: string, mode: string)
      requires Valid()
      modifies this`commands, this`timer
      ensures var c := DhwOperationMode(serial, dhw, mode);
              commands == Coalesce(old(commands), c) && timer == Arm(old(timer), old(commands), c)
      ensures Valid()
    {
      EnqueueCommand(DhwOperationMode(serial, dhw, mode));
    }
  }
}

/**
 How a configuration travels from etcd to the container: the engine parses what it watches and
 offers it to a queue of ten; the service takes from the queue and reloads the container.
 */
module ConfigFlow {
  import opened Std
  import opened RpcError

  /** The part of AppConf the command line can override, and all the rest of it. */
  datatype Conf = Conf(log: string, format: string, level: string, rest: string)

  /** Command-line options; an empty one overrides nothing. */
  datatype Options = Options(log: string, logFormat: string, logLevel: string)

  function Override(o: Options, c: Conf): (r: Conf)
    ensures r.rest == c.rest
    ensures if IsEmptyString(o.log) then r.log == c.log else r.log == o.log
    ensures if IsEmptyString(o.logFormat) then r.format == c.format else r.format == o.logFormat
    ensures if IsEmptyString(o.logLevel) then r.level == c.level else r.level == o.logLevel
  {
    Conf(OrElse(o.log, c.log), OrElse(o.logFormat, c.format), OrElse(o.logLevel, c.level), c.rest)
  }

  type Unmarshal = string -> Option<Conf>

  /** refreshConfig's parser: JSON is the default and the only format that is supported. */
  function Parse(json: Unmarshal, configFormat: string, content: string): Option<Conf> {
    var format := OrElse(configFormat, "json");
    if format != "json" || IsEmptyString(content) then None else json(content)
  }

  datatype Kind = Put | Delete | OtherKind

  /** A watched event; prev is None when the key did not exist before. */
  datatype Event = Event(kind: Kind, key: string, value: string, prev: Option<string>)

  datatype Response = Canceled | WatchError | Events(events: seq<Event>)

  /** What an event makes of the configuration: a new one, or nothing. */
  function Effect(json: Unmarshal, path: string, format: string, e: Event): Option<Conf> {
    if e.prev == Some(e.value) || e.key != path || !e.kind.Put? then None else Parse(json, format, e.value)
  }

  /** A put of the watched key with a new value that is not blank and parses, and nothing else, has an effect. */
  lemma EffectExactly(json: Unmarshal, path: string, format: string, e: Event)
    ensures Effect(json, path, format, e).Some? <==>
              && e.kind.Put? && e.key == path && e.prev != Some(e.value)
              && (IsEmptyString(format) || format == "json") && !IsEmptyString(e.value) && json(e.value).Some?
    ensures Effect(json, path, format, e).Some? ==> Effect(json, path, format, e) == json(e.value)
  {
    if IsEmptyString(format) {
      assert OrElse(format, "json") == "json";
    }
  }

  /** The configurations a list of events yields, in order. */
  function Yield(json: Unmarshal, path: string, format: string, es: seq<Event>): seq<Conf> {
    if es == [] then []
    else
      Yield(json, path, format, es[..|es| - 1]) +
      match Effect(json, path, format, es[|es| - 1])
      case None => []
      case Some(c) => [c]
  }

  const BUFFER := 10

  /** The queue between the two goroutines, with the history of what was offered to it. */
  class Queue {
    var changes: seq<Conf>
    ghost var offered: seq<Conf>    // every configuration that parsed, the first one loaded at start
    ghost var accepted: seq<nat>    // indices of those that entered the queue, in order
    ghost var taken: nat            // how many of the accepted ones left it

    ghost predicate Valid()
      reads this
    {
      && |changes| <= BUFFER
      && 1 <= taken && taken + |changes| == |accepted|
      && offered != [] && accepted[0] == 0
      && (forall i :: 0 <= i < |accepted| ==> accepted[i] < |offered|)
      && (forall i, j :: 0 <= i < j < |accepted| ==> accepted[i] < accepted[j])
      && (forall i :: 0 <= i < |changes| ==> changes[i] == offered[accepted[taken + i]])
    }

    /** The newest configuration that parsed, and the newest one that entered the queue. */
    ghost function Newest(): Conf
      requires Valid()
      reads this
    {
      offered[|offered| - 1]
    }

    ghost function LastAccepted(): nat
      requires Valid()
      reads this
    {
      accepted[|accepted| - 1]
    }

    /** Since the queue had these lengths, nothing was dropped unless more came than fits into it. */
    ghost predicate KeptUp(waiting: nat, offers: nat, accepts: nat)
      reads this
    {
      && offers <= |offered| && |changes| <= waiting + |offered| - offers
      && (waiting + |offered| - offers <= BUFFER ==> |accepted| - accepts == |offered| - offers)
    }

    constructor (first: Conf)
      ensures Valid() && offered == [first] && taken == 1 && changes == [] && accepted == [0]
    {
      changes, offered, accepted, taken := [], [first], [0], 1;
    }

    /** The sending cases of the select in Subscribe: enter, or be dropped when the queue is full. */
    method Offer(c: Conf)
      requires Valid()
      modifies this
      ensures KeptUp(old(|changes|), old(|offered|), old(|accepted|))
      ensures Valid() && offered == old(offered) + [c] && taken == old(taken)
      ensures accepted == if old(|changes|) < BUFFER then old(accepted) + [|old(offered)|] else old(accepted)
    {
      if |changes| < BUFFER {
        changes := changes + [c];
        accepted := accepted + [|offered|];
      }
      offered := offered + [c];
    }

    method Take() returns (c: Conf)
      requires Valid() && changes != []
      modifies this
      ensures Valid() && offered == old(offered) && accepted == old(accepted)
      ensures taken == old(taken) + 1 && c == offered[accepted[taken - 1]] && changes == old(changes)[1..]
    {
      c := changes[0];
      changes := changes[1..];
      taken := taken + 1;
    }
  }

  /** The consumer: its options, its queue, the configuration the container runs with, and the cancel channel. */
  class Service {
    const options: Options
    const queue: Queue
    var container: Conf
    var cancelSent: bool      // somebody waits to send on watcherCancelC
    var cancelClosed: bool    // watcherCancelC is closed
    ghost var reloads: seq<Conf>

    /** Every configuration taken so far was loaded, overrides applied, in the order it was offered. */
    ghost predicate Valid()
      reads `container, `reloads, queue
    {
      && queue.Valid() && |reloads| == queue.taken && container == reloads[|reloads| - 1]
      && forall i :: 0 <= i < queue.taken ==> reloads[i] == Override(options, queue.offered[queue.accepted[i]])
    }

    /** loadEngine: the container starts with the first configuration. */
    constructor (options: Options, first: Conf)
      ensures Valid() && fresh(queue) && queue.offered == [first] && this.options == options
      ensures !cancelSent && !cancelClosed
    {
      this.options := options;
      queue := new Queue(first);
      container := Override(options, first);
      reloads := [Override(options, first)];
      cancelSent, cancelClosed := false, false;
    }

    method ProcessChange(c: Conf)
      modifies `container, `reloads
      ensures container == Override(options, c) && reloads == old(reloads) + [Override(options, c)]
    {
      var conf := c;
      if !IsEmptyString(options.log) {
        conf := conf.(log := options.log);
      }
      if !IsEmptyString(options.logFormat) {
        conf := conf.(format := options.logFormat);
      }
      if !IsEmptyString(options.logLevel) {
        conf := conf.(level := options.logLevel);
      }
      container := conf;
      reloads := reloads + [conf];
    }

    method ConsumeOne()
      requires Valid() && queue.changes != []
      modifies `container, `reloads, queue
      ensures Valid() && queue.offered == old(queue.offered) && queue.accepted == old(queue.accepted)
      ensures |queue.changes| == old(|queue.changes|) - 1
    {
      var change := queue.Take();
      ProcessChange(change);
    }

    /** What was loaded stays in the order it was offered when more is offered behind it. */
    twostate lemma StillValid()
      requires old(Valid()) && queue.Valid() && queue.taken == old(queue.taken)
      requires container == old(container) && reloads == old(reloads)
      requires old(queue.offered) <= queue.offered && old(queue.accepted) <= queue.accepted
      ensures Valid()
    {
      forall i | 0 <= i < queue.taken
        ensures reloads[i] == Override(options, queue.offered[queue.accepted[i]])
      {
        assert queue.accepted[i] == old(queue.accepted)[i] && old(queue.accepted)[i] < |old(queue.offered)|;
      }
    }

    /** A receive from the cancel channel would not block. */
    predicate CancelReady()
      reads this
    {
      cancelSent || cancelClosed
    }

    /**
     The select in Subscribe: any case that is ready may be chosen. A change is dropped only when the
     queue is full and nothing is to be received from the cancel channel.
     */
    method Push(c: Conf) returns (cancelled: bool)
      requires Valid()
      modifies `cancelSent, queue
      ensures Valid() && (cancelled ==> old(CancelReady())) && (cancelSent ==> old(cancelSent))
      ensures old(CancelReady()) && old(|queue.changes|) == BUFFER ==> cancelled
      ensures queue.offered == old(queue.offered) + if cancelled then [] else [c]
      ensures queue.KeptUp(old(|queue.changes|), old(|queue.offered|), old(|queue.accepted|))
    {
      var cancelChosen: bool := *;
      cancelled := CancelReady() && (cancelChosen || |queue.changes| == BUFFER);
      if cancelled {
        cancelSent := false;
      } else {
        queue.Offer(c);
        StillValid();
      }
    }

    /** close(cancelC), which panics on a channel that is closed already. */
    method CloseCancel() returns (panics: bool)
      modifies `cancelClosed
      ensures cancelClosed && (panics <==> old(cancelClosed))
    {
      panics, cancelClosed := cancelClosed, true;
    }

    /** The others run for a while: the consumer, and a Run whose server failed and that cancels the watch. */
    method Meanwhile(mayCancel: bool)
      requires Valid()
      modifies `cancelSent, `container, `reloads, queue
      ensures Valid() && queue.offered == old(queue.offered) && queue.accepted == old(queue.accepted)
      ensures |queue.changes| <= old(|queue.changes|) && (CancelReady() ==> old(CancelReady()) || mayCancel)
    {
      ConsumeSome();
      var cancels: bool := *;
      cancelSent := cancelSent || (cancels && mayCancel);
    }

    /** The consumer runs for a while: it takes any number of changes. */
    method ConsumeSome()
      requires Valid()
      modifies `container, `reloads, queue
      ensures Valid() && queue.offered == old(queue.offered) && queue.accepted == old(queue.accepted)
      ensures |queue.changes| <= old(|queue.changes|)
    {
      var more: bool := *;
      while more && queue.changes != []
        invariant Valid() && queue.offered == old(queue.offered) && queue.accepted == old(queue.accepted)
        invariant |queue.changes| <= old(|queue.changes|)
        decreases |queue.changes|
      {
        ConsumeOne();
        more := *;
      }
    }

    /** The consumer runs until the queue is empty; see Drained for where that leaves the container. */
    method Drain()
      requires Valid()
      modifies `container, `reloads, queue
      ensures Valid() && queue.changes == []
      ensures queue.offered == old(queue.offered) && queue.accepted == old(queue.accepted)
      ensures container == Override(options, queue.offered[queue.LastAccepted()])
    {
      while queue.changes != []
        invariant Valid() && queue.offered == old(queue.offered) && queue.accepted == old(queue.accepted)
        decreases |queue.changes|
      {
        ConsumeOne();
      }
    }
  }

  datatype End = Closed | Cancelled | Stopped(err: bool) | Crashed

  class Engine {
    const json: Unmarshal
    const path: string
    const format: string
    var configer: Option<Conf>

    constructor (json: Unmarshal, path: string, format: string)
      ensures this.json == json && this.path == path && this.format == format && configer == None
    {
      this.json, this.path, this.format, configer := json, path, format, None;
    }

    /** A content that does not parse leaves the engine's configuration as it was. */
    method RefreshConfig(content: string) returns (err: bool)
      modifies this
      ensures err <==> Parse(json, format, content).None?
      ensures configer == if err then old(configer) else Parse(json, format, content)
    {
      var configFormat := format;
      if IsEmptyString(configFormat) {
        configFormat := "json";
      }
      if configFormat != "json" {
        return true;
      }
      if IsEmptyString(content) {
        return true;
      }
      match json(content)
      case None => return true;
      case Some(c) =>
        configer := Some(c);
        return false;
    }

    method ParseConfigChange(e: Event) returns (change: Option<Conf>, err: bool)
      requires e.prev != Some(e.value)
      modifies this
      ensures change == Effect(json, path, format, e) && (err ==> change.None?)
      ensures configer == if change.Some? then change else old(configer)
    {
      if e.key == path {
        if e.kind.Put? {
          err := RefreshConfig(e.value);
          return if err then None else configer, err;
        } else if e.kind.Delete? {
          return None, false;
        }
        return None, true;
      }
      return None, false;
    }

    /** The engine runs with the last configuration that parsed. */
    ghost predicate InStep(s: Service)
      reads this, s, s.queue
    {
      s.Valid() && configer == Some(s.queue.Newest())
    }

    /** Events es were handled: each had a previous value, and what they yield was offered behind `before`. */
    ghost predicate Handled(before: seq<Conf>, after: seq<Conf>, es: seq<Event>) {
      && after == before + Yield(json, path, format, es)
      && forall i :: 0 <= i < |es| ==> es[i].prev.Some?
    }

    function EffectList(e: Event): seq<Conf> {
      match Effect(json, path, format, e)
      case None => []
      case Some(c) => [c]
    }

    lemma HandledNext(a: seq<Conf>, b: seq<Conf>, es: seq<Event>, n: nat)
      requires n < |es| && Handled(a, b, es[..n]) && es[n].prev.Some?
      ensures Handled(a, b + EffectList(es[n]), es[..n + 1])
    {
      assert es[..n + 1][..n] == es[..n];
    }

    lemma HandledBoth(a: seq<Conf>, b: seq<Conf>, c: seq<Conf>, xs: seq<Event>, ys: seq<Event>)
      requires Handled(a, b, xs) && Handled(b, c, ys)
      ensures Handled(a, c, xs + ys)
    {
      YieldConcat(json, path, format, xs, ys);
      assert forall i :: 0 <= i < |xs + ys| ==> (xs + ys)[i].prev.Some? by {
        assert forall i :: 0 <= i < |ys| ==> (xs + ys)[|xs| + i] == ys[i];
      }
    }

    /** How far one response was handled, and why not further. */
    ghost predicate Outcome(r: Response, end: Option<End>, got: seq<Event>) {
      match r
      case Events(es) =>
        && got <= es && (end == None ==> got == es)
        && (end == None
            || (end == Some(Cancelled) && |got| < |es| && EffectList(es[|got|]) != [])
            || (end == Some(Crashed) && |got| < |es| && es[|got|].prev.None?))
      case _ => got == [] && end == Some(Stopped(r.WatchError?))
    }

    /** How far the watch went through all events before its end, and why not further. */
    ghost predicate Watched(rs: seq<Response>, end: End, went: seq<Event>) {
      && went <= AllEvents(rs)
      && (end.Closed? || end.Stopped? ==> went == AllEvents(rs))
      && (end.Cancelled? ==> |went| < |AllEvents(rs)| && EffectList(AllEvents(rs)[|went|]) != [])
      && (end.Crashed? ==> |went| < |AllEvents(rs)| && AllEvents(rs)[|went|].prev.None?)
    }

    /** Where the watch stands after what was handled of response n. */
    lemma WentOn(rs: seq<Response>, n: nat, went: seq<Event>, end: Option<End>, got: seq<Event>)
      requires n < |rs| && Outcome(rs[n], end, got)
      requires AllEvents(rs) == went + AllEvents(rs[n..])
      ensures end == None ==> AllEvents(rs) == went + got + AllEvents(rs[n + 1..])
      ensures end.Some? ==> Watched(rs, end.value, went + got)
    {
      assert rs[n..][1..] == rs[n + 1..];
      match rs[n]
      case Events(es) => Regroup(AllEvents(rs), went, got, es, AllEvents(rs[n + 1..]));
      case _ =>
    }

    /** What a part of the watch does to the service, whatever it ends with. */
    twostate predicate Went(s: Service, mayCancel: bool, new end: Option<End>)
      reads this, s, s.queue
    {
      && s.Valid() && (end != Some(Cancelled) ==> InStep(s))
      && s.queue.KeptUp(old(|s.queue.changes|), old(|s.queue.offered|), old(|s.queue.accepted|))
      && (s.CancelReady() || end == Some(Cancelled) ==> old(s.CancelReady()) || mayCancel)
    }

    /** One event, with the others running before it. */
    method Handle(s: Service, e: Event, mayCancel: bool) returns (end: Option<End>)
      requires InStep(s)
      modifies this, s`cancelSent, s`container, s`reloads, s.queue
      ensures Went(s, mayCancel, end)
      ensures end == None || end == Some(Crashed) || end == Some(Cancelled)
      ensures end == Some(Crashed) <==> e.prev.None?
      ensures end == Some(Cancelled) ==> EffectList(e) != [] && configer == Effect(json, path, format, e)
      ensures s.queue.offered == old(s.queue.offered) + if end == None then EffectList(e) else []
      ensures end == None && Effect(json, path, format, e).Some? ==>
        s.queue.offered == old(s.queue.offered) + [Effect(json, path, format, e).value]
    {
      s.Meanwhile(mayCancel);
      if e.prev.None? {
        // the previous value of a key that is new is a nil pointer
        return Some(Crashed);
      }
      if e.value == e.prev.value {
        return None;
      }
      var change, err := ParseConfigChange(e);
      if err || change.None? {
        return None;
      }
      var cancelled := s.Push(change.value);
      return if cancelled then Some(Cancelled) else None;
    }

    /** One watch response: its events in order, until one ends the watch. */
    method HandleAll(s: Service, events: seq<Event>, mayCancel: bool) returns (end: Option<End>, ghost seen: nat)
      requires InStep(s)
      modifies this, s`cancelSent, s`container, s`reloads, s.queue
      ensures Went(s, mayCancel, end)
      ensures end == None || end == Some(Crashed) || end == Some(Cancelled)
      ensures seen <= |events| && Handled(old(s.queue.offered), s.queue.offered, events[..seen])
      ensures end == None ==> seen == |events|
      ensures end == Some(Crashed) ==> seen < |events| && events[seen].prev.None?
      ensures end == Some(Cancelled) ==> seen < |events| && EffectList(events[seen]) != []
    {
      seen := 0;
      for n := 0 to |events|
        invariant seen == n && Went(s, mayCancel, None)
        invariant Handled(old(s.queue.offered), s.queue.offered, events[..n])
      {
        ghost var before := s.queue.offered;
        end := Handle(s, events[n], mayCancel);
        if end.Some? {
          return end, seen;
        }
        HandledNext(old(s.queue.offered), before, events, n);
        seen := n + 1;
      }
      return None, seen;
    }

    method HandleResponse(s: Service, r: Response, mayCancel: bool) returns (end: Option<End>, ghost got: seq<Event>)
      requires InStep(s)
      modifies this, s`cancelSent, s`container, s`reloads, s.queue
      ensures Went(s, mayCancel, end)
      ensures Handled(old(s.queue.offered), s.queue.offered, got)
      ensures Outcome(r, end, got)
    {
      match r
      case Canceled => return Some(Stopped(false)), [];
      case WatchError => return Some(Stopped(true)), [];
      case Events(es) =>
        var ended, seen := HandleAll(s, es, mayCancel);
        return ended, es[..seen];
    }

    /** The loop of Subscribe: the watch responses in order, until one of them ends it. */
    method Watch(s: Service, responses: seq<Response>, mayCancel: bool) returns (end: End, ghost went: seq<Event>)
      requires InStep(s)
      modifies this, s`cancelSent, s`container, s`reloads, s.queue
      ensures Went(s, mayCancel, Some(end))
      ensures Handled(old(s.queue.offered), s.queue.offered, went)
      ensures Watched(responses, end, went)
    {
      went := [];
      for n := 0 to |responses|
        invariant Went(s, mayCancel, None)
        invariant AllEvents(responses) == went + AllEvents(responses[n..])
        invariant Handled(old(s.queue.offered), s.queue.offered, went)
      {
        ghost var before := s.queue.offered;
        var ended, got := HandleResponse(s, responses[n], mayCancel);
        HandledBoth(old(s.queue.offered), before, s.queue.offered, went, got);
        WentOn(responses, n, went, ended, got);
        went := went + got;
        if ended.Some? {
          return ended.value, went;
        }
      }
      return Closed, went;
    }

    /**
     Subscribe, with its deferred close of the cancel channel. It goes through all events unless a
     cancel is received at a push, or an event without a previous value crashes it.
     */
    method Subscribe(s: Service, responses: seq<Response>, mayCancel: bool)
      returns (end: End, panics: bool, ghost went: seq<Event>)
      requires InStep(s)
      modifies this, s, s.queue
      ensures s.Valid() && (!end.Cancelled? ==> InStep(s))
      ensures s.queue.KeptUp(old(|s.queue.changes|), old(|s.queue.offered|), old(|s.queue.accepted|))
      ensures end.Cancelled? ==> old(s.CancelReady()) || mayCancel
      ensures Handled(old(s.queue.offered), s.queue.offered, went)
      ensures Watched(responses, end, went)
      ensures s.cancelClosed && (panics <==> end.Crashed? || old(s.cancelClosed))
    {
      end, went := Watch(s, responses, mayCancel);
      var closedTwice := s.CloseCancel();
      panics := end.Crashed? || closedTwice;
    }
  }

  /**
   The goroutine that loadEngine starts: Subscribe, and then a close of the same channel again. So
   however the watch ends, and also when nothing went wrong, it ends in a panic.
   */
  method WatchForService(e: Engine, s: Service, responses: seq<Response>, mayCancel: bool)
    returns (end: End, panics: bool, ghost went: seq<Event>)
    requires e.InStep(s) && !s.cancelClosed
    modifies e, s, s.queue
    ensures s.Valid() && (!end.Cancelled? ==> e.InStep(s))
    ensures e.Handled(old(s.queue.offered), s.queue.offered, went) && e.Watched(responses, end, went)
    ensures panics
  {
    var crashed;
    end, crashed, went := e.Subscribe(s, responses, mayCancel);
    panics := s.CloseCancel();
    panics := panics || crashed;
  }

  /** loadConfig and the start of loadEngine: without a first configuration that parses there is no service. */
  method LoadEngine(e: Engine, stored: Option<string>, options: Options) returns (s: Service?)
    modifies e
    ensures s == null <==> IsEmptyString(e.path) || stored.None? || Parse(e.json, e.format, stored.value).None?
    ensures s != null ==> fresh(s) && fresh(s.queue) && e.InStep(s) && |s.queue.offered| == 1
    ensures s != null ==> !s.cancelSent && !s.cancelClosed && s.options == options
    ensures s != null ==> stored.Some? && e.configer == e.json(stored.value) == Some(s.queue.offered[0])
    ensures s != null ==> s.container == Override(options, s.queue.offered[0])
  {
    if IsEmptyString(e.path) || stored.None? || IsEmptyString(stored.value) {
      return null;
    }
    var err := e.RefreshConfig(stored.value);
    if err {
      return null;
    }
    s := new Service(options, e.configer.value);
  }

  /** The events before the first response that stops the watch. */
  function AllEvents(rs: seq<Response>): seq<Event> {
    if rs == [] || !rs[0].Events? then [] else rs[0].events + AllEvents(rs[1..])
  }

  /** Responses with events only, in front of others, come first. */
  lemma {:induction false} EventsConcat(rs: seq<Response>, rest: seq<Response>)
    requires forall r <- rs :: r.Events?
    ensures AllEvents(rs + rest) == AllEvents(rs) + AllEvents(rest)
  {
    if rs == [] {
      assert rs + rest == rest;
    } else {
      EventsConcat(rs[1..], rest);
      assert (rs + rest)[1..] == rs[1..] + rest;
    }
  }

  /** The events of a response are all there, and behind one that stops the watch there are none. */
  lemma EventsExactly(es: seq<Event>, rest: seq<Response>)
    ensures AllEvents([Events(es)]) == es
    ensures AllEvents([Canceled] + rest) == [] == AllEvents([WatchError] + rest)
  {
    assert [Events(es)][1..] == [];
    assert ([Canceled] + rest)[0] == Canceled && ([WatchError] + rest)[0] == WatchError;
  }

  /** One event more yields its effect, if it has one. */
  lemma YieldNext(json: Unmarshal, path: string, format: string, es: seq<Event>, e: Event)
    ensures var before, after := Yield(json, path, format, es), Yield(json, path, format, es + [e]);
      && (Effect(json, path, format, e).None? ==> after == before)
      && (Effect(json, path, format, e).Some? ==> after == before + [Effect(json, path, format, e).value])
  {
    assert (es + [e])[..|es|] == es;
  }

  lemma Regroup(all: seq<Event>, went: seq<Event>, got: seq<Event>, es: seq<Event>, rest: seq<Event>)
    requires all == went + (es + rest) && got <= es
    ensures went + got <= all
    ensures got == es ==> all == went + got + rest
    ensures |got| < |es| ==> |went + got| < |all| && all[|went + got|] == es[|got|]
  {
  }

  lemma {:induction false} YieldConcat(json: Unmarshal, path: string, format: string, a: seq<Event>, b: seq<Event>)
    ensures Yield(json, path, format, a + b) == Yield(json, path, format, a) + Yield(json, path, format, b)
    decreases |b|
  {
    if b == [] {
      assert a + b == a;
    } else {
      assert (a + b)[..|a + b| - 1] == a + b[..|b| - 1];
      YieldConcat(json, path, format, a, b[..|b| - 1]);
    }
  }

  // ---------------------------------------------------------------- what the container ends up with

  /** Increasing indices below n, as many as n: all of them. */
  lemma {:induction false} AllAccepted(a: seq<nat>, n: nat)
    requires |a| == n && forall i :: 0 <= i < n ==> a[i] < n
    requires forall i, j :: 0 <= i < j < n ==> a[i] < a[j]
    ensures forall i :: 0 <= i < n ==> a[i] == i
  {
    if n > 0 {
      forall i | 0 <= i < n - 1 ensures a[i] < n - 1 {
        assert a[i] < a[n - 1];
      }
      AllAccepted(a[..n - 1], n - 1);
      assert forall i :: 0 <= i < n - 1 ==> a[..n - 1][i] == a[i];
      assert n > 1 ==> a[n - 2] < a[n - 1];
    }
  }

  /**
   With the queue empty, the container runs with the newest configuration that was accepted; that is
   the engine's own when the newest one was not dropped, and it never was if all were accepted.
   */
  lemma Drained(e: Engine, s: Service)
    requires e.InStep(s) && s.queue.changes == []
    ensures s.container == Override(s.options, s.queue.offered[s.queue.LastAccepted()])
    ensures s.queue.LastAccepted() == |s.queue.offered| - 1 ==> s.container == Override(s.options, e.configer.value)
    ensures |s.queue.accepted| == |s.queue.offered| ==> s.queue.LastAccepted() == |s.queue.offered| - 1
    ensures s.queue.LastAccepted() == |s.queue.offered| - 1 <==> |s.queue.offered| - 1 in s.queue.accepted
  {
    if |s.queue.accepted| == |s.queue.offered| {
      AllAccepted(s.queue.accepted, |s.queue.offered|);
    }
  }

  /** xs is ys with some elements left out. */
  ghost predicate Subsequence(xs: seq<Conf>, ys: seq<Conf>)
    decreases |ys|
  {
    xs == [] || (ys != [] &&
                 var xs', ys' := xs[..|xs| - 1], ys[..|ys| - 1];
                 Subsequence(xs, ys') || (xs[|xs| - 1] == ys[|ys| - 1] && Subsequence(xs', ys')))
  }

  lemma {:induction false} PickedInOrder(xs: seq<Conf>, ys: seq<Conf>, at: seq<nat>)
    requires |at| == |xs| && forall i :: 0 <= i < |at| ==> at[i] < |ys| && xs[i] == ys[at[i]]
    requires forall i, j :: 0 <= i < j < |at| ==> at[i] < at[j]
    ensures Subsequence(xs, ys)
    decreases |ys|
  {
    if xs != [] {
      var n := |xs| - 1;
      assert at[n] < |ys| && forall i :: 0 <= i < n ==> at[i] < at[n];
      if at[n] == |ys| - 1 {
        PickedInOrder(xs[..n], ys[..|ys| - 1], at[..n]);
      } else {
        PickedInOrder(xs, ys[..|ys| - 1], at);
      }
    }
  }

  function OverrideAll(o: Options, cs: seq<Conf>): (r: seq<Conf>) {
    seq(|cs|, i requires 0 <= i < |cs| => Override(o, cs[i]))
  }

  /** The reloads are an in-order subsequence of what parsed, overrides applied. */
  lemma {:induction false} ReloadsInOrder(s: Service)
    requires s.Valid()
    ensures Subsequence(s.reloads, OverrideAll(s.options, s.queue.offered))
  {
    PickedInOrder(s.reloads, OverrideAll(s.options, s.queue.offered), s.queue.accepted[..|s.reloads|]);
  }
}

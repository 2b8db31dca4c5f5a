/**
 How an error crosses RPC hops: the server wrapper turns it into a go-micro error, the client
 wrapper turns that back. Negative codes travel as positive ones with the detail tagged "-@",
 because go-micro's transport replaces negative codes.
 */
module RpcError {
  import opened Std

  /** The broccoli error, without its free-form Data. */
  datatype Error = Error(code: int, msg: string, cause: string, serviceId: string, tracerId: string)

  /** The values of a go-micro error. */
  datatype Wire = Wire(id: string, code: int, detail: string, status: string)

  const MIN32 := -0x8000_0000
  const SYSTEM := 10001

  predicate InInt32(x: int) {
    MIN32 <= x < -MIN32
  }

  /** int32(x) */
  function ToInt32(x: int): (r: int)
    ensures InInt32(r)
    ensures InInt32(x) ==> r == x
    ensures (r - x) % 0x1_0000_0000 == 0
  {
    (x - MIN32) % 0x1_0000_0000 + MIN32
  }

  predicate IsSpace(c: char) {
    || c in "\t\n\U{b}\U{c}\r \U{85}\U{a0}\U{1680}\U{2028}\U{2029}\U{202f}\U{205f}\U{3000}"
    || '\U{2000}' <= c <= '\U{200a}'
  }

  /** utils.IsEmptyString: nothing is left after trimming white space. */
  predicate IsEmptyString(s: string) {
    forall i :: 0 <= i < |s| ==> IsSpace(s[i])
  }

  function OrElse(s: string, otherwise: string): (r: string)
    ensures IsEmptyString(s) ==> r == otherwise
    ensures !IsEmptyString(s) ==> r == s
  {
    if IsEmptyString(s) then otherwise else s
  }

  /** ECodeMsg: the default messages; a missing code reads as "". */
  type Messages = map<int, string>

  function MessageOf(t: Messages, code: int): (r: string)
    ensures r == "" || (code in t && r == t[code])
    ensures code in t ==> r == t[code]
  {
    if code in t then t[code] else ""
  }

  function New(t: Messages, code: int, msg: string, cause: string): Error {
    Error(code, OrElse(msg, MessageOf(t, code)), cause, "", "")
  }

  /** The cause behind the tracer's prefix, unless it is there already. */
  function Prefixed(tracer: string, cause: string): (r: string)
    ensures tracer + "@" <= r
    ensures r == cause <==> tracer + "@" <= cause
    ensures r == cause || r == tracer + "@" + cause
  {
    if tracer + "@" <= cause then cause else tracer + "@" + cause
  }

  const TAG := "-@"

  // ---------------------------------------------------------------- server side

  /** What a handler can return: nothing, an error of one of the two kinds, or any other error. */
  datatype Returned = Nothing | Broccoli(e: Error) | GoMicro(w: Wire) | Other(text: string)

  function Tagged(w: Wire): Wire {
    if w.code < 0 then w.(code := ToInt32(-w.code), detail := TAG + w.detail) else w
  }

  function Wrap(e: Error, self: string, tracer: string, flagged: bool): Wire {
    var w := Wire(OrElse(e.serviceId, self), ToInt32(e.code), e.msg, Prefixed(tracer, e.cause));
    if flagged then Tagged(w) else w
  }

  function ServerWire(r: Returned, self: string, tracer: string, flagged: bool): Option<Wire> {
    match r
    case Nothing => None
    case Broccoli(e) => Some(Wrap(e, self, tracer, flagged))
    case GoMicro(w) => Some(w)
    case Other(text) => Some(Wire(self, SYSTEM, text, tracer + "@" + text))
  }

  // ---------------------------------------------------------------- client side

  /** Where the first '@' is, or |s|. */
  function IndexAt(s: string): (i: nat)
    ensures i <= |s| && (i < |s| ==> s[i] == '@') && forall k :: 0 <= k < i ==> s[k] != '@'
  {
    if s == [] || s[0] == '@' then 0 else 1 + IndexAt(s[1..])
  }

  /** strings.SplitN(s, "@", 2) gives two parts and the first is "-". */
  predicate SplitsTagged(s: string) {
    var i := IndexAt(s); i < |s| && s[..i] == "-"
  }

  lemma TaggedIsPrefix(s: string)
    ensures SplitsTagged(s) <==> TAG <= s
    ensures SplitsTagged(s) ==> s[IndexAt(s) + 1..] == s[2..]
  {
    var i := IndexAt(s);
    if TAG <= s {
      assert s[0] == '-' && s[1] == '@';
      assert i == 1 && s[..1] == "-";
    }
    assert SplitsTagged(s) ==> s[..i][0] == '-' && i == 1;
  }

  function Untagged(w: Wire): Wire {
    if TAG <= w.detail then w.(code := ToInt32(-w.code), detail := w.detail[2..]) else w
  }

  function Unwrap(t: Messages, w: Wire, self: string, tracer: string): Error {
    var u := Untagged(w);
    New(t, u.code, u.detail, u.status).(serviceId := OrElse(u.id, self), tracerId := tracer)
  }

  /** gmerrors.Error, whose fields the wrappers rewrite in place. */
  class GmError {
    var id: string
    var code: int
    var detail: string
    var status: string

    constructor (w: Wire)
      ensures Value() == w
    {
      id, code, detail, status := w.id, w.code, w.detail, w.status;
    }

    function Value(): Wire
      reads this
    {
      Wire(id, code, detail, status)
    }

    /** The server's rewriting of a negative code. */
    method TagNegative()
      modifies this
      ensures Value() == Tagged(old(Value()))
    {
      if code < 0 {
        code := ToInt32(-code);
        detail := TAG + detail;
      }
    }

    /** clientLogWrap.Call: undo the tag in place, then build the broccoli error. */
    method ToBroccoli(t: Messages, self: string, tracer: string) returns (e: Error)
      modifies this
      ensures Value() == Untagged(old(Value()))
      ensures e == Unwrap(t, old(Value()), self, tracer)
    {
      var i := IndexAt(detail);
      TaggedIsPrefix(detail);
      if i < |detail| && detail[..i] == "-" {
        code := ToInt32(-code);
        detail := detail[i + 1..];
      }
      e := New(t, code, detail, status);
      e := e.(serviceId := id);
      if IsEmptyString(e.serviceId) {
        e := e.(serviceId := self);
      }
      e := e.(tracerId := tracer);
    }
  }

  /** The server wrapper's treatment of what the handler returned. */
  method ToGoMicro(r: Returned, self: string, tracer: string, flagged: bool) returns (g: GmError?)
    ensures g == null <==> ServerWire(r, self, tracer, flagged).None?
    ensures g != null ==> fresh(g) && ServerWire(r, self, tracer, flagged) == Some(g.Value())
  {
    match r
    case Nothing => g := null;
    case Broccoli(e) =>
      var serviceId := e.serviceId;
      if IsEmptyString(serviceId) {
        serviceId := self;
      }
      var status := e.cause;
      if !(tracer + "@" <= status) {
        status := tracer + "@" + e.cause;
      }
      g := new GmError(Wire(serviceId, ToInt32(e.code), e.msg, status));
      if flagged {
        g.TagNegative();
      }
    case GoMicro(w) => g := new GmError(w);
    case Other(text) => g := new GmError(Wire(self, SYSTEM, text, tracer + "@" + text));
  }

  // ---------------------------------------------------------------- one hop

  /** No default message of a non-negative code looks like a tagged detail. */
  ghost predicate CleanTable(t: Messages) {
    forall c :: c in t && c >= 0 ==> !(TAG <= t[c])
  }

  datatype Hop = Hop(server: string, client: string)

  function Pass(t: Messages, e: Error, h: Hop, tracer: string): Error {
    Unwrap(t, Wrap(e, h.server, tracer, true), h.client, tracer)
  }

  /** The message an error arrives with: its own, or the default of its code. */
  function Shown(t: Messages, e: Error): (r: string)
    ensures !IsEmptyString(e.msg) ==> r == e.msg
    ensures IsEmptyString(e.msg) && e.code in t ==> r == t[e.code]
    ensures IsEmptyString(e.msg) && e.code !in t ==> r == ""
  {
    OrElse(e.msg, MessageOf(t, e.code))
  }

  ghost predicate Encodable(e: Error) {
    InInt32(e.code) && !(e.code >= 0 && TAG <= e.msg)
  }

  lemma BlankExample()
    ensures IsEmptyString("") && IsEmptyString(" \t\r\n") && !IsEmptyString(" a ")
  {
    assert !IsSpace(" a "[1]);
  }

  lemma NotBlank(s: string)
    requires TAG <= s
    ensures !IsEmptyString(s)
  {
    assert !IsSpace(s[0]);
  }

  /** A flagged hop keeps code and message exactly for the encodable errors. */
  lemma HopKeepsExactly(t: Messages, e: Error, h: Hop, tracer: string)
    requires CleanTable(t)
    ensures Pass(t, e, h, tracer).code == e.code && Pass(t, e, h, tracer).msg == Shown(t, e) <==> Encodable(e)
  {
    var w := Wrap(e, h.server, tracer, true);
    if InInt32(e.code) {
      if e.code < 0 {
        assert (TAG + e.msg)[2..] == e.msg;
      } else if TAG <= e.msg {
        NotBlank(e.msg);
      }
    }
  }

  /** On the wire a flagged code is negative only for codes that are -2^31 in 32 bits. */
  lemma WireNegativeExactly(e: Error, self: string, tracer: string)
    ensures Wrap(e, self, tracer, true).code < 0 <==> ToInt32(e.code) == MIN32
  {
  }

  // ---------------------------------------------------------------- one call, whatever the handler returned

  /** What the client's caller gets for it. */
  function Received(t: Messages, r: Returned, h: Hop, tracer: string, flagged: bool): Option<Error> {
    match ServerWire(r, h.server, tracer, flagged)
    case None => None
    case Some(w) => Some(Unwrap(t, w, h.client, tracer))
  }

  /** Both wrappers, one after the other. */
  method CallOnce(t: Messages, r: Returned, h: Hop, tracer: string, flagged: bool)
    returns (wire: Option<Wire>, e: Option<Error>)
    ensures wire == ServerWire(r, h.server, tracer, flagged)
    ensures e == Received(t, r, h, tracer, flagged)
  {
    var g := ToGoMicro(r, h.server, tracer, flagged);
    if g == null {
      return None, None;
    }
    wire := Some(g.Value());
    var err := g.ToBroccoli(t, h.client, tracer);
    e := Some(err);
  }

  /** A call of a broccoli client: a negative code is positive and tagged on the wire, and negative again behind it. */
  lemma FlaggedCall(t: Messages, e: Error, h: Hop, tracer: string)
    requires MIN32 < e.code < -MIN32 && CleanTable(t)
    ensures var w := ServerWire(Broccoli(e), h.server, tracer, true);
            w.Some? && w.value.code == (if e.code < 0 then -e.code else e.code) && w.value.code >= 0
            && w.value.detail == if e.code < 0 then "-@" + e.msg else e.msg
    ensures var r := Received(t, Broccoli(e), h, tracer, true);
            r.Some? && (r.value.code == e.code && r.value.msg == Shown(t, e) <==> e.code < 0 || !("-@" <= e.msg))
            && r.value.cause == Prefixed(tracer, e.cause) && r.value.tracerId == tracer
            && r.value.serviceId == OrElse(OrElse(e.serviceId, h.server), h.client)
  {
    HopKeepsExactly(t, e, h, tracer);
  }

  /** Any other call: code and message travel as they are, and the client would take a tag for one of its own. */
  lemma UnflaggedCall(t: Messages, e: Error, h: Hop, tracer: string)
    requires InInt32(e.code) && CleanTable(t)
    ensures ServerWire(Broccoli(e), h.server, tracer, false) ==
            Some(Wire(OrElse(e.serviceId, h.server), e.code, e.msg, Prefixed(tracer, e.cause)))
    ensures var r := Received(t, Broccoli(e), h, tracer, false);
            r.Some? && (!("-@" <= e.msg) ==> r.value.code == e.code && r.value.msg == Shown(t, e))
            && (e.code != 0 && e.code != MIN32 && "-@" <= e.msg ==> r.value.code == -e.code)
  {
  }

  /** Errors that are not broccoli's: a go-micro error goes through as it is, any other gets the system's code. */
  lemma OtherCalls(t: Messages, w: Wire, text: string, h: Hop, tracer: string, flagged: bool)
    ensures var msg := OrElse(w.detail, MessageOf(t, w.code));
            "-@" <= w.detail || Received(t, GoMicro(w), h, tracer, flagged) ==
                                Some(Error(w.code, msg, w.status, OrElse(w.id, h.client), tracer))
    ensures var msg := OrElse(text, MessageOf(t, 10001));
            "-@" <= text || Received(t, Other(text), h, tracer, flagged) ==
                            Some(Error(10001, msg, tracer + "@" + text, OrElse(h.server, h.client), tracer))
    ensures Received(t, Nothing, h, tracer, flagged) == None
  {
  }

  // ---------------------------------------------------------------- any number of hops

  function Travel(t: Messages, e: Error, path: seq<Hop>, tracer: string): Error
    decreases |path|
  {
    if path == [] then e else Travel(t, Pass(t, e, path[0], tracer), path[1..], tracer)
  }

  /** What a hop leaves unchanged. */
  ghost predicate Settled(t: Messages, e: Error, tracer: string) {
    && Encodable(e) && e.msg == Shown(t, e) && tracer + "@" <= e.cause
    && !IsEmptyString(e.serviceId) && e.tracerId == tracer
  }

  lemma SettledStays(t: Messages, e: Error, h: Hop, tracer: string)
    requires CleanTable(t) && Settled(t, e, tracer)
    ensures Pass(t, e, h, tracer) == e
  {
    HopKeepsExactly(t, e, h, tracer);
  }

  lemma OneHopSettles(t: Messages, e: Error, h: Hop, tracer: string)
    requires CleanTable(t) && Encodable(e)
    requires !IsEmptyString(e.serviceId) || !IsEmptyString(h.server) || !IsEmptyString(h.client)
    ensures Settled(t, Pass(t, e, h, tracer), tracer)
    ensures Pass(t, e, h, tracer) ==
              Error(e.code, Shown(t, e), Prefixed(tracer, e.cause),
                    OrElse(OrElse(e.serviceId, h.server), h.client), tracer)
  {
    HopKeepsExactly(t, e, h, tracer);
  }

  lemma {:induction false} SettledTravels(t: Messages, e: Error, path: seq<Hop>, tracer: string)
    requires CleanTable(t) && Settled(t, e, tracer)
    ensures Travel(t, e, path, tracer) == e
    decreases |path|
  {
    if path != [] {
      SettledStays(t, e, path[0], tracer);
      SettledTravels(t, e, path[1..], tracer);
    }
  }

  /**
   After one or more hops an encodable error has its own code and message, the service id of its
   origin and its cause behind the tracer's prefix once, however many hops there were.
   */
  lemma {:induction false} ManyHopsAreOne(t: Messages, e: Error, path: seq<Hop>, tracer: string)
    requires CleanTable(t) && Encodable(e) && path != []
    requires !IsEmptyString(e.serviceId) || !IsEmptyString(path[0].server) || !IsEmptyString(path[0].client)
    ensures Travel(t, e, path, tracer) ==
              Error(e.code, Shown(t, e), Prefixed(tracer, e.cause),
                    OrElse(OrElse(e.serviceId, path[0].server), path[0].client), tracer)
  {
    OneHopSettles(t, e, path[0], tracer);
    SettledTravels(t, Pass(t, e, path[0], tracer), path[1..], tracer);
  }

  /** Code and message of an encodable error with its message filled in stay as they are. */
  lemma {:induction false} KeptOnTheWay(t: Messages, e: Error, path: seq<Hop>, tracer: string)
    requires CleanTable(t) && Encodable(e) && e.msg == Shown(t, e)
    ensures Travel(t, e, path, tracer).code == e.code && Travel(t, e, path, tracer).msg == e.msg
    decreases |path|
  {
    if path != [] {
      HopKeepsExactly(t, e, path[0], tracer);
      KeptOnTheWay(t, Pass(t, e, path[0], tracer), path[1..], tracer);
    }
  }

  lemma {:induction false} CodesStayInRange(t: Messages, e: Error, path: seq<Hop>, tracer: string)
    requires InInt32(e.code)
    ensures InInt32(Travel(t, e, path, tracer).code)
    decreases |path|
  {
    if path != [] {
      CodesStayInRange(t, Pass(t, e, path[0], tracer), path[1..], tracer);
    }
  }

  /** With code 0 a hop can only strip tags, until nothing is left and the default message takes over. */
  lemma {:induction false} ZeroShrinks(t: Messages, e: Error, path: seq<Hop>, tracer: string, n: nat)
    requires e.code == 0 && (|e.msg| < n || e.msg == MessageOf(t, 0)) && CleanTable(t)
    ensures var r := Travel(t, e, path, tracer); r.code == 0 && (|r.msg| < n || r.msg == MessageOf(t, 0))
    decreases |path|
  {
    if path != [] {
      ZeroShrinks(t, Pass(t, e, path[0], tracer), path[1..], tracer, n);
    }
  }

  /** Any number of hops, at least one, keeps code and message exactly for the encodable errors. */
  lemma ManyHopsKeepExactly(t: Messages, e: Error, path: seq<Hop>, tracer: string)
    requires CleanTable(t) && path != []
    ensures var r := Travel(t, e, path, tracer); r.code == e.code && r.msg == Shown(t, e) <==> Encodable(e)
  {
    var e1, rest := Pass(t, e, path[0], tracer), path[1..];
    HopKeepsExactly(t, e, path[0], tracer);
    if Encodable(e) {
      KeptOnTheWay(t, e1, rest, tracer);
    } else if !InInt32(e.code) {
      CodesStayInRange(t, e1, rest, tracer);
    } else if e.code == 0 {
      NotBlank(e.msg);
      ZeroShrinks(t, e1, rest, tracer, |e.msg|);
      assert e.code in t ==> !(TAG <= t[e.code]);
    } else {
      KeptOnTheWay(t, e1, rest, tracer);
    }
  }

  /** The failing family: any non-negative code whose message starts with the tag loses both. */
  lemma TaggedMessageIsLost(t: Messages, e: Error, h: Hop, tracer: string)
    requires InInt32(e.code) && e.code >= 0 && TAG <= e.msg && !IsEmptyString(e.msg[2..])
    ensures Pass(t, e, h, tracer).code == -e.code && Pass(t, e, h, tracer).msg == e.msg[2..]
  {
  }

  /** One concrete error a hop changes. */
  lemma TaggedMessageExample()
    ensures Pass(map[], Error(7, "-@x", "", "s", ""), Hop("a", "b"), "t") == Error(-7, "x", "t@", "s", "t")
  {
    assert "-@x"[2..] == "x";
    assert !IsSpace("x"[0]) && !IsEmptyString("x");
    assert !IsSpace("s"[0]) && !IsEmptyString("s");
    assert !("t" + "@" <= "");
  }
}

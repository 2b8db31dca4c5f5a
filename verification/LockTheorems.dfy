/** What every run of any number of lockers guarantees. */
module LockTheorems {
  import opened Std
  import opened LockStore
  import opened LockLedger
  import opened LockProtocol

  // ---------------------------------------------------------------- spans and handlers

  /** From grant to release, two tokens never overlap. */
  lemma SpansDisjoint(s: State, t: string, u: string)
    requires Reachable(s) && t != u && s.g.IsReleased(t) && s.g.IsReleased(u)
    ensures s.g.tokens[t].fate.end <= s.g.GrantedAt(u) || s.g.tokens[u].fate.end <= s.g.GrantedAt(t)
  {
    ReachableInv(s);
    assert s.g.Granted(t) && s.g.Granted(u);
  }

  /** The handlers of two calls of Run that returned nil ran one after the other. */
  lemma HandlersDisjoint(s: State, i: nat, j: nat)
    requires Reachable(s) && i < |s.lockers| && j < |s.lockers| && i != j
    requires s.lockers[i].phase.ReturnedNil? && s.lockers[j].phase.ReturnedNil?
    ensures s.lockers[i].phase.end < s.lockers[j].phase.start || s.lockers[j].phase.end < s.lockers[i].phase.start
  {
    ReachableInv(s);
    assert LockerInv(s.g, i, s.lockers[i]) && LockerInv(s.g, j, s.lockers[j]);
    SpansDisjoint(s, s.lockers[i].phase.run, s.lockers[j].phase.run);
  }

  // ---------------------------------------------------------------- leases

  /** A lease never promises more than its owner's LockTimeout from now. */
  ghost predicate TtlFor(s: State, t: string) {
    s.g.IsHeld(t) ==>
      var i := s.g.tokens[t].owner;
      i < |s.lockers| && s.g.tokens[t].fate.until <= s.g.store.now + s.lockers[i].ttl
  }

  ghost predicate TtlInv(s: State) {
    forall t :: TtlFor(s, t)
  }

  /** What a step can do to a lease: extend it, never cut it short; releases are final. */
  ghost predicate TokenKept(s: State, g: Ledger, t: string) {
    && (s.g.IsHeld(t) ==> g.Granted(t) && (g.IsHeld(t) ==> s.g.tokens[t].fate.until <= g.tokens[t].fate.until))
    && (s.g.IsReleased(t) ==> g.IsReleased(t))
  }

  lemma ServedToken(s: State, l: Label, t: string)
    requires Inv(s) && TtlFor(s, t) && Enabled(s, l) && l.Execute?
    ensures TtlFor(Apply(s, l), t) && TokenKept(s, Apply(s, l).g, t)
  {
    assert LockerInv(s.g, l.i, s.lockers[l.i]);
    match CommandOf(s.lockers[l.i])
    case SetNX(_, _) =>
    case Expire(_, _) =>
    case Delete(_) =>
  }

  lemma ArrivedToken(s: State, c: Command, t: string)
    requires Inv(s) && TtlFor(s, t) && c in s.late
    ensures TtlFor(Apply(s, Arrive(c)), t) && TokenKept(s, Apply(s, Arrive(c)).g, t)
  {
    assert LateInv(s, c);
  }

  lemma {:induction false} StepToken(s: State, l: Label, t: string)
    requires Inv(s) && TtlFor(s, t) && Enabled(s, l)
    ensures TtlFor(Apply(s, l), t) && TokenKept(s, Apply(s, l).g, t)
  {
    if l.Execute? {
      ServedToken(s, l, t);
    } else if l.Arrive? {
      ArrivedToken(s, l.c, t);
    }
  }

  lemma StepTtl(s: State, l: Label)
    requires Inv(s) && TtlInv(s) && Enabled(s, l)
    ensures TtlInv(Apply(s, l))
  {
    forall t ensures TtlFor(Apply(s, l), t) {
      StepToken(s, l, t);
    }
  }

  lemma {:induction false} RunTtl(s: State, run: seq<Label>)
    requires Inv(s) && TtlInv(s) && Follows(s, run)
    ensures TtlInv(After(s, run))
    decreases |run|
  {
    if run != [] {
      assert Goes(s, run[0], run[1..]);
      StepInv(s, run[0]);
      StepTtl(s, run[0]);
      RunTtl(Apply(s, run[0]), run[1..]);
    }
  }

  lemma ReachableTtl(s: State)
    requires Reachable(s)
    ensures Inv(s) && TtlInv(s)
  {
    ReachableInv(s);
    var s0, run :| Init(s0) && Follows(s0, run) && After(s0, run) == s;
    InitInv(s0);
    RunTtl(s0, run);
  }

  /** SETNX succeeds exactly when every lease ever promised has run out or was released by its owner. */
  lemma SetNXExactly(s: State, j: nat)
    requires Reachable(s) && j < |s.lockers| && s.lockers[j].op.Trying?
    ensures Serve(s.g, CommandOf(s.lockers[j])).1
            <==> forall t :: s.g.IsHeld(t) ==> s.g.tokens[t].fate.until <= s.g.store.now
  {
    LiveExactly(s);
  }

  lemma {:induction false} LeaseLastsFrom(s: State, run: seq<Label>, t: string)
    requires Inv(s) && TtlInv(s) && Follows(s, run) && s.g.IsHeld(t)
    requires After(s, run).g.store.now < s.g.tokens[t].fate.until
    ensures After(s, run).g.IsReleased(t) || After(s, run).g.store.Holds(t)
    decreases |run|
  {
    if run != [] {
      assert Goes(s, run[0], run[1..]);
      var s1 := Apply(s, run[0]);
      StepInv(s, run[0]);
      StepTtl(s, run[0]);
      StepToken(s, run[0], t);
      if s1.g.IsHeld(t) {
        LeaseLastsFrom(s1, run[1..], t);
      } else {
        ReleasedStays(s1, run[1..], t);
      }
    }
  }

  lemma {:induction false} ReleasedStays(s: State, run: seq<Label>, t: string)
    requires Inv(s) && TtlInv(s) && Follows(s, run) && s.g.IsReleased(t)
    ensures After(s, run).g.IsReleased(t)
    decreases |run|
  {
    if run != [] {
      assert Goes(s, run[0], run[1..]);
      StepInv(s, run[0]);
      StepTtl(s, run[0]);
      StepToken(s, run[0], t);
      ReleasedStays(Apply(s, run[0]), run[1..], t);
    }
  }

  /** Along any run, a lease keeps the key until its promised expiry or its own release. */
  lemma LeaseLasts(s: State, run: seq<Label>, s': State, t: string)
    requires Reachable(s) && Leads(s, run, s') && s.g.IsHeld(t) && s'.g.store.now < s.g.tokens[t].fate.until
    ensures s'.g.IsReleased(t) || s'.g.store.Holds(t)
  {
    ReachableTtl(s);
    LeaseLastsFrom(s, run, t);
  }

  /** So no SETNX succeeds under a lease, whoever sent it and when, unless the lease was released first. */
  lemma LeaseKeepsOthersOut(s: State, run: seq<Label>, s': State, t: string, c: Command)
    requires Reachable(s) && Leads(s, run, s') && s.g.IsHeld(t) && s'.g.store.now < s.g.tokens[t].fate.until
    requires c.SetNX? && Serve(s'.g, c).1
    ensures s'.g.IsReleased(t)
  {
    LeaseLasts(s, run, s', t);
  }

  /** Every live entry expires within the largest LockTimeout. */
  lemma EntryBounded(s: State, maxTtl: nat)
    requires Reachable(s) && s.g.store.Live() && forall k <- s.lockers :: k.ttl <= maxTtl
    ensures s.g.store.entry.value.expiry <= s.g.store.now + maxTtl
  {
    ReachableTtl(s);
    var t := s.g.store.entry.value.token;
    assert s.g.IsHeld(t) && TtlFor(s, t);
    assert s.lockers[s.g.tokens[t].owner] in s.lockers;
  }

  /** The locker that drew the token of a command, if it has one. */
  ghost function SenderOf(s: State, l: Label): (i: nat)
    requires Reachable(s) && Enabled(s, l) && (l.Execute? || l.Arrive?)
    ensures l.Execute? ==> i == l.i
    ensures l.Arrive? && l.c.t != "" ==> s.g.Known(l.c.t) && s.g.tokens[l.c.t].owner == i < |s.lockers|
  {
    ReachableInv(s);
    if l.Execute? then l.i
    else
      assert LateInv(s, l.c);
      if l.c.t == "" then 0 else s.g.tokens[l.c.t].owner
  }

  /** However stale or late, a command leaves a live entry of another locker than its sender as it is. */
  lemma StaleHarmless(s: State, l: Label)
    requires Reachable(s) && Enabled(s, l) && (l.Execute? || l.Arrive?) && s.g.store.Live()
    requires s.g.Known(s.g.store.entry.value.token) ==>
               s.g.tokens[s.g.store.entry.value.token].owner != SenderOf(s, l)
    ensures Apply(s, l).g.store == s.g.store
  {
    ReachableInv(s);
    if l.Execute? {
      assert LockerInv(s.g, l.i, s.lockers[l.i]);
    } else {
      assert LateInv(s, l.c);
    }
  }

  // ---------------------------------------------------------------- lost grants

  predicate Knows(k: LockerState, t: string) {
    k.token == t || (k.op.Answered? && k.op.cand == t)
  }

  /** Granted, but no locker knows it: the reply was lost, or the call was given up. */
  ghost predicate Orphan(s: State, t: string) {
    s.g.IsHeld(t) && forall i :: 0 <= i < |s.lockers| ==> !Knows(s.lockers[i], t)
  }

  /** The locker that drew t. */
  ghost function OwnerOf(s: State, t: string): (i: nat)
    requires Reachable(s) && s.g.IsHeld(t)
    ensures i < |s.lockers|
  {
    ReachableTtl(s);
    assert TtlFor(s, t);
    s.g.tokens[t].owner
  }

  /** Refreshes of t that are still under way although their sender has given up. */
  function LateRenewals(s: State, t: string, ttl: nat): nat {
    s.late[Expire(t, ttl)]
  }

  lemma OrphanUnknown(s: State, l: Label, t: string, i: int)
    requires Inv(s) && Enabled(s, l) && Orphan(s, t) && 0 <= i < |s.lockers|
    ensures !Knows(Apply(s, l).lockers[i], t)
  {
    assert LockerInv(s.g, i, s.lockers[i]) && !Knows(s.lockers[i], t);
  }

  /** Nobody sends a command for an orphan any more: no new refresh comes under way, and only late ones extend it. */
  lemma OrphanStep(s: State, l: Label, t: string, ttl: nat)
    requires Inv(s) && TtlFor(s, t) && Enabled(s, l) && Orphan(s, t) && ttl == s.lockers[s.g.tokens[t].owner].ttl
    ensures var s' := Apply(s, l);
            && LateRenewals(s', t, ttl) <= LateRenewals(s, t, ttl)
            && (s'.g.IsHeld(t) ==> s'.g.tokens[t].owner == s.g.tokens[t].owner)
            && (s'.g.IsHeld(t) && s'.g.tokens[t].fate.until > s.g.tokens[t].fate.until ==>
                  && LateRenewals(s', t, ttl) == LateRenewals(s, t, ttl) - 1
                  && s'.g.tokens[t].fate.until <= s.g.tokens[t].fate.until + ttl)
  {
    if l.Arrive? {
      assert LateInv(s, l.c);
    } else if !l.Tick? {
      assert LockerInv(s.g, l.i, s.lockers[l.i]) && !Knows(s.lockers[l.i], t);
    }
  }

  lemma OrphanStays(s: State, l: Label, t: string)
    requires Inv(s) && Enabled(s, l) && Orphan(s, t)
    ensures Apply(s, l).g.IsHeld(t) ==> Orphan(Apply(s, l), t)
  {
    forall i | 0 <= i < |s.lockers| ensures !Knows(Apply(s, l).lockers[i], t) {
      OrphanUnknown(s, l, t, i);
    }
  }

  lemma OneLess(n: nat, m: nat, ttl: nat)
    requires n <= m
    ensures n * ttl <= m * ttl && (n == m - 1 ==> n * ttl + ttl == m * ttl)
  {
  }

  /** The latest moment an orphan can live to: its lease, and one LockTimeout for each refresh under way. */
  function Deadline(s: State, t: string, ttl: nat): int
    requires s.g.IsHeld(t)
  {
    s.g.tokens[t].fate.until + LateRenewals(s, t, ttl) * ttl
  }

  lemma {:induction false} OrphanDeadline(s: State, l: Label, t: string, ttl: nat)
    requires Inv(s) && TtlFor(s, t) && Enabled(s, l) && Orphan(s, t) && ttl == s.lockers[s.g.tokens[t].owner].ttl
    ensures Apply(s, l).g.IsHeld(t) ==> Deadline(Apply(s, l), t, ttl) <= Deadline(s, t, ttl)
  {
    OrphanStep(s, l, t, ttl);
    OneLess(LateRenewals(Apply(s, l), t, ttl), LateRenewals(s, t, ttl), ttl);
  }

  /** The lockers' options never change. */
  lemma TtlStays(s: State, l: Label, i: int)
    requires Enabled(s, l) && 0 <= i < |s.lockers|
    ensures Apply(s, l).lockers[i].ttl == s.lockers[i].ttl
  {
  }

  lemma {:induction false} ReleasedIsGone(s: State, run: seq<Label>, t: string)
    requires Inv(s) && TtlInv(s) && Follows(s, run) && s.g.IsReleased(t)
    ensures !After(s, run).g.store.Holds(t)
  {
    ReleasedStays(s, run, t);
    RunInv(s, run);
  }

  lemma {:induction false} OrphanFreesFrom(s: State, run: seq<Label>, t: string, ttl: nat)
    requires Inv(s) && TtlInv(s) && Follows(s, run) && Orphan(s, t) && TtlFor(s, t)
    requires ttl == s.lockers[s.g.tokens[t].owner].ttl && After(s, run).g.store.now >= Deadline(s, t, ttl)
    ensures !After(s, run).g.store.Holds(t)
    decreases |run|
  {
    if run == [] {
      OneLess(0, LateRenewals(s, t, ttl), ttl);
    } else {
      var s' := Apply(s, run[0]);
      StepInv(s, run[0]);
      StepTtl(s, run[0]);
      StepToken(s, run[0], t);
      if s'.g.IsHeld(t) {
        OrphanStays(s, run[0], t);
        OrphanStep(s, run[0], t, ttl);
        OrphanDeadline(s, run[0], t, ttl);
        TtlStays(s, run[0], s.g.tokens[t].owner);
        OrphanFreesFrom(s', run[1..], t, ttl);
      } else {
        ReleasedIsGone(s', run[1..], t);
      }
    }
  }

  /**
   A grant nobody knows of, because its reply was lost or because it came late, frees itself: after the
   owner's LockTimeout, and once more that long for every refresh of it that was still under way.
   */
  lemma OrphanFreesItself(s: State, run: seq<Label>, s': State, t: string)
    requires Reachable(s) && Leads(s, run, s') && Orphan(s, t)
    requires var ttl := s.lockers[OwnerOf(s, t)].ttl;
             s'.g.store.now >= s.g.store.now + (1 + LateRenewals(s, t, ttl)) * ttl
    ensures !s'.g.store.Holds(t)
  {
    ReachableTtl(s);
    assert TtlFor(s, t);
    var ttl := s.lockers[OwnerOf(s, t)].ttl;
    OneLess(LateRenewals(s, t, ttl), 1 + LateRenewals(s, t, ttl), ttl);
    OrphanFreesFrom(s, run, t, ttl);
  }

  /** Between its calls, a locker without a token has forgotten every lease it was ever granted. */
  lemma UnlockedForgets(s: State, i: nat, t: string)
    requires Reachable(s) && i < |s.lockers| && s.lockers[i].op.Idle? && s.lockers[i].token == ""
    requires Mine(s.g, i, t) && s.g.IsHeld(t)
    ensures Orphan(s, t)
  {
    ReachableInv(s);
    forall j | 0 <= j < |s.lockers| ensures !Knows(s.lockers[j], t) {
      assert LockerInv(s.g, j, s.lockers[j]);
    }
  }

  /** And with a token, that token was granted to it and not released: it has the lease while that lasts. */
  lemma LockedHolds(s: State, i: nat)
    requires Reachable(s) && i < |s.lockers| && s.lockers[i].op.Idle? && s.lockers[i].token != ""
    ensures Mine(s.g, i, s.lockers[i].token) && s.g.IsHeld(s.lockers[i].token)
    ensures s.g.store.Holds(s.lockers[i].token) <==> s.g.store.now < s.g.tokens[s.lockers[i].token].fate.until
  {
    ReachableInv(s);
    assert LockerInv(s.g, i, s.lockers[i]);
  }

  // ---------------------------------------------------------------- what a true answer means

  /**
   A call of LockWithContext that returns true holds a token whose lease was set during that call:
   the token it came with, renewed, or one drawn and granted in this very call.
   */
  lemma TrueIsEarned(s: State, l: Label)
    requires Reachable(s) && Enabled(s, l) && !l.Tick? && !l.Arrive?
    requires s.lockers[l.i].op != Idle
    requires Apply(s, l).lockers[l.i].op == Idle && Apply(s, l).lockers[l.i].result == Locked(true, false)
    requires !s.lockers[l.i].op.Releasing? && !s.lockers[l.i].op.ReleaseAnswered?
    ensures var k, k' := s.lockers[l.i], Apply(s, l).lockers[l.i];
            && Mine(s.g, l.i, k'.token) && s.g.IsHeld(k'.token)
            && s.g.tokens[k'.token].fate.renewed >= k.calledAt
            && (k'.token == k.token || s.g.tokens[k'.token].drawn >= k.calledAt)
            && (k.op.RefreshAnswered? ==> k.op.ok && k'.token == k.token)
  {
    ReachableInv(s);
    assert LockerInv(s.g, l.i, s.lockers[l.i]);
  }

  // ---------------------------------------------------------------- handlers that do overlap

  /** Two handlers run at once only when the lease of the one that was granted first has run out. */
  lemma OverlapOutlived(s: State, i: nat, j: nat)
    requires Reachable(s) && i < |s.lockers| && j < |s.lockers| && i != j
    requires s.lockers[i].phase.Handling? && s.lockers[j].phase.Handling?
    ensures var t, u := s.lockers[i].token, s.lockers[j].token;
            && s.g.IsHeld(t) && s.g.IsHeld(u) && s.g.GrantedAt(t) != s.g.GrantedAt(u)
            && s.g.tokens[if s.g.GrantedAt(t) < s.g.GrantedAt(u) then t else u].fate.until <= s.g.store.now
  {
    ReachableInv(s);
    assert LockerInv(s.g, i, s.lockers[i]) && LockerInv(s.g, j, s.lockers[j]);
  }

  /** A call of Run by a fresh locker that nothing delays, up to its first reply. */
  function Straight(j: nat, t: string): seq<Label> {
    [Call(j), DrawToken(j, t), Execute(j), Deliver(j, false)]
  }

  lemma Cons(s: State, l: Label, rest: seq<Label>)
    requires Enabled(s, l) && Follows(Apply(s, l), rest)
    ensures Follows(s, [l] + rest) && After(s, [l] + rest) == After(Apply(s, l), rest)
  {
    assert ([l] + rest)[1..] == rest;
  }

  lemma {:induction false} Concat(s: State, p: seq<Label>, q: seq<Label>)
    requires Follows(s, p) && Follows(After(s, p), q)
    ensures Follows(s, p + q) && After(s, p + q) == After(After(s, p), q)
    decreases |p|
  {
    if p == [] {
      assert p + q == q;
    } else {
      assert (p + q)[0] == p[0] && (p + q)[1..] == p[1..] + q;
      assert Gone(s, p[0], p[1..]) == After(s, p);
      Concat(Apply(s, p[0]), p[1..], q);
    }
  }

  lemma LeadsOn(s: State, run: seq<Label>, s1: State, l: Label)
    requires Leads(s, run, s1) && Enabled(s1, l)
    ensures Leads(s, run + [l], Apply(s1, l))
  {
    Cons(s1, l, []);
    Concat(s, run, [l]);
  }

  lemma ReachesOn(s: State, run: seq<Label>, s': State)
    requires Reachable(s) && Leads(s, run, s')
    ensures Reachable(s')
  {
    var s0, p :| Init(s0) && Follows(s0, p) && After(s0, p) == s;
    Concat(s0, p, run);
  }

  /** s' is s after steps of locker j alone that left the entry and its own LockTimeout as they were. */
  ghost predicate OnlyMoved(s: State, s': State, j: nat) {
    && j < |s.lockers| == |s'.lockers| && s'.g.store == s.g.store && s'.late == s.late
    && s'.lockers[j].ttl == s.lockers[j].ttl
    && forall i :: 0 <= i < |s.lockers| && i != j ==> s'.lockers[i] == s.lockers[i]
  }

  predicate Fresh(k: LockerState) {
    k.phase.Ready? && k.op.Idle? && k.token == ""
  }

  lemma Calls(s: State, j: nat) returns (s': State)
    requires j < |s.lockers| && Fresh(s.lockers[j])
    ensures Enabled(s, Call(j)) && s' == Apply(s, Call(j)) && OnlyMoved(s, s', j)
    ensures s'.lockers[j].op.Creating? && s'.lockers[j].phase.Obtaining? && s'.g.tokens == s.g.tokens
  {
    s' := Apply(s, Call(j));
  }

  lemma Draws(s: State, j: nat, t: string) returns (s': State)
    requires j < |s.lockers| && s.lockers[j].op.Creating? && s.lockers[j].phase.Obtaining?
    requires t != "" && !s.g.Known(t)
    ensures Enabled(s, DrawToken(j, t)) && s' == Apply(s, DrawToken(j, t)) && OnlyMoved(s, s', j)
    ensures s'.lockers[j].op.Trying? && s'.lockers[j].op.cand == t && s'.lockers[j].phase.Obtaining?
    ensures forall u :: s'.g.Known(u) <==> u == t || s.g.Known(u)
  {
    s' := Apply(s, DrawToken(j, t));
  }

  /** Run number j is about to send its first SETNX, with token t. */
  lemma Tries(s: State, j: nat, t: string) returns (s2: State)
    requires j < |s.lockers| && Fresh(s.lockers[j]) && t != "" && !s.g.Known(t)
    ensures Leads(s, [Call(j), DrawToken(j, t)], s2) && OnlyMoved(s, s2, j)
    ensures s2.lockers[j].op.Trying? && s2.lockers[j].op.cand == t && s2.lockers[j].phase.Obtaining?
    ensures forall u :: s2.g.Known(u) <==> u == t || s.g.Known(u)
  {
    var s1 := Calls(s, j);
    s2 := Draws(s1, j, t);
    assert Leads(s, [], s);
    LeadsOn(s, [], s, Call(j));
    LeadsOn(s, [Call(j)], s1, DrawToken(j, t));
    assert [] + [Call(j)] == [Call(j)];
  }

  /** A command and its reply, without delay or loss. */
  function Exchange(j: nat): seq<Label> {
    [Execute(j), Deliver(j, false)]
  }

  lemma Exchanged(s: State, j: nat) returns (s2: State, answer: bool)
    requires j < |s.lockers| && Sending(s.lockers[j])
    ensures Leads(s, Exchange(j), s2) && |s2.lockers| == |s.lockers|
    ensures answer == Serve(s.g, CommandOf(s.lockers[j])).1
    ensures s2.g == Pass(Serve(s.g, CommandOf(s.lockers[j])).0, 0)
    ensures s2.lockers[j] == Reply(LocalStep(s.lockers[j], Execute(j), answer, s.g.step), s.g.step + 1)
    ensures forall i :: 0 <= i < |s.lockers| && i != j ==> s2.lockers[i] == s.lockers[i]
  {
    var s1 := Apply(s, Execute(j));
    answer := Serve(s.g, CommandOf(s.lockers[j])).1;
    assert s1.lockers[j] == LocalStep(s.lockers[j], Execute(j), answer, s.g.step);
    s2 := Apply(s1, Deliver(j, false));
    assert Leads(s, [], s);
    LeadsOn(s, [], s, Execute(j));
    LeadsOn(s, [Execute(j)], s1, Deliver(j, false));
    assert [] + [Execute(j)] == [Execute(j)];
  }

  /** What an attempt ends with: the lock if and only if no lease runs; otherwise the next attempt, if one is left. */
  ghost predicate Attempted(s: State, s2: State, j: nat, t: string, attempts: int)
    requires j < |s.lockers| == |s2.lockers|
  {
    var k, k2 := s.lockers[j], s2.lockers[j];
    if !s.g.store.Live() then
      && k2.op.Idle? && k2.result == Locked(true, false) && k2.token == t
      && s2.g.store.entry == Some(Entry(t, s.g.store.now + k.ttl))
    else if attempts <= 1 then k2.op.Idle? && k2.result == Locked(false, false) && k2.token == k.token
    else k2.op == Pausing(t, attempts - 1)
  }

  /** Its SETNX and the reply: the handler starts if and only if the entry was not live. */
  lemma Asks(s: State, j: nat) returns (s2: State)
    requires j < |s.lockers| && s.lockers[j].op.Trying?
    ensures Leads(s, Exchange(j), s2) && |s2.lockers| == |s.lockers|
    ensures Attempted(s, s2, j, s.lockers[j].op.cand, s.lockers[j].op.attempts)
    ensures s.lockers[j].phase.Obtaining? ==> (s2.lockers[j].phase.Handling? <==> !s.g.store.Live())
    ensures forall i :: 0 <= i < |s.lockers| && i != j ==> s2.lockers[i] == s.lockers[i]
    ensures s2.g.store == s.g.store.SetNX(s.lockers[j].op.cand, s.lockers[j].ttl).0
    ensures forall u :: s2.g.Known(u) == s.g.Known(u)
  {
    var answer;
    s2, answer := Exchanged(s, j);
  }

  /** After a pause a locker that nothing delays tries once more, with the same token. */
  lemma RetriesExactly(s: State, j: nat) returns (s2: State)
    requires j < |s.lockers| && s.lockers[j].op.Pausing?
    ensures Leads(s, [Resume(j, false)] + Exchange(j), s2) && |s2.lockers| == |s.lockers|
    ensures Attempted(s, s2, j, s.lockers[j].op.cand, s.lockers[j].op.attempts)
  {
    var s1 := Apply(s, Resume(j, false));
    assert s1.lockers[j].op == Trying(s.lockers[j].op.cand, s.lockers[j].op.attempts);
    s2 := Asks(s1, j);
    Cons(s, Resume(j, false), Exchange(j));
  }

  lemma StraightOn(s: State, j: nat, t: string) returns (s': State)
    requires j < |s.lockers| && Fresh(s.lockers[j]) && t != "" && !s.g.Known(t)
    ensures Leads(s, Straight(j, t), s') && |s'.lockers| == |s.lockers|
    ensures s'.lockers[j].phase.Handling? <==> !s.g.store.Live()
    ensures forall i :: 0 <= i < |s.lockers| && i != j ==> s'.lockers[i] == s.lockers[i]
    ensures s'.g.store == s.g.store.SetNX(t, s.lockers[j].ttl).0
    ensures forall u :: s'.g.Known(u) <==> u == t || s.g.Known(u)
  {
    var s2 := Tries(s, j, t);
    s' := Asks(s2, j);
    Concat(s, [Call(j), DrawToken(j, t)], Exchange(j));
    assert [Call(j), DrawToken(j, t)] + Exchange(j) == Straight(j, t);
  }

  /** The entry is live exactly while some lease runs. */
  lemma LiveExactly(s: State)
    requires Reachable(s)
    ensures !s.g.store.Live() <==> forall t :: s.g.IsHeld(t) ==> s.g.tokens[t].fate.until <= s.g.store.now
  {
    ReachableInv(s);
    if s.g.store.Live() {
      var e := s.g.store.entry.value;
      assert s.g.IsHeld(e.token) && s.g.tokens[e.token].fate.until > s.g.store.now;
    }
  }

  /**
   While handler i runs, a call of Run that nothing delays starts its own handler beside it if and only
   if every lease has run out, that of i among them. So exclusion lasts as long as leases do.
   */
  lemma JoinsExactly(s: State, i: nat, j: nat, t: string) returns (s': State)
    requires Reachable(s) && i < |s.lockers| && j < |s.lockers| && i != j
    requires s.lockers[i].phase.Handling? && s.lockers[j].phase.Ready? && t != "" && !s.g.Known(t)
    ensures Leads(s, Straight(j, t), s') && |s'.lockers| == |s.lockers| && s'.lockers[i].phase.Handling?
    ensures s'.lockers[j].phase.Handling?
            <==> forall u :: s.g.IsHeld(u) ==> s.g.tokens[u].fate.until <= s.g.store.now
    ensures s.g.IsHeld(s.lockers[i].token)
  {
    ReachableInv(s);
    assert LockerInv(s.g, i, s.lockers[i]) && LockerInv(s.g, j, s.lockers[j]);
    LiveExactly(s);
    s' := StraightOn(s, j, t);
  }

  // ---------------------------------------------------------------- what a call without delay ends with

  /** A create draws its token and tries it, with one attempt more than there are retries. */
  lemma CreatesExactly(s: State, j: nat, t: string) returns (s2: State)
    requires Reachable(s) && j < |s.lockers| && s.lockers[j].op.Creating? && t != "" && !s.g.Known(t)
    ensures Leads(s, [DrawToken(j, t)] + Exchange(j), s2) && |s2.lockers| == |s.lockers|
    ensures !s.g.store.Live() ==> s2.lockers[j].result == Locked(true, false) && s2.lockers[j].token == t
    ensures s.g.store.Live() && s.lockers[j].retryCount == 0 ==>
              s2.lockers[j].result == Locked(false, false) && s2.lockers[j].token == ""
    ensures s.g.store.Live() && s.lockers[j].retryCount > 0 ==>
              s2.lockers[j].op == Pausing(t, s.lockers[j].retryCount)
  {
    var s1 := Apply(s, DrawToken(j, t));
    assert s1.lockers[j].op == Trying(t, s.lockers[j].retryCount + 1) && s1.lockers[j].token == "";
    s2 := Asks(s1, j);
    Cons(s, DrawToken(j, t), Exchange(j));
  }

  /** What the server makes of a refresh or a release: it works if and only if the lease of its token still runs. */
  ghost predicate LeaseDecides(g: Ledger, c: Command) {
    var (g', answer) := Serve(g, c);
    && (c.t != "" ==> g.IsHeld(c.t))
    && (answer <==> c.t != "" && g.store.now < g.tokens[c.t].fate.until)
    && (answer ==> g'.store.entry == if c.Expire? then Some(Entry(c.t, g.store.now + c.ttl)) else None)
    && (answer && c.Delete? ==> g'.IsReleased(c.t))
  }

  lemma AnswersExactly(s: State, j: nat)
    requires Reachable(s) && j < |s.lockers| && (s.lockers[j].op.Refreshing? || s.lockers[j].op.Releasing?)
    ensures LeaseDecides(s.g, CommandOf(s.lockers[j]))
    ensures s.lockers[j].op.Refreshing? ==> s.lockers[j].token != ""
  {
    ReachableInv(s);
    assert LockerInv(s.g, j, s.lockers[j]);
  }

  /** The steps that make a locker with a command ready to send: a call of Lock with a token, and the two ends. */
  predicate Begins(s: State, j: nat, l: Label) {
    && j < |s.lockers| && Enabled(s, l)
    && ((l == Call(j) && s.lockers[j].token != "") || l == CallUnlock(j) || l == HandlerDone(j))
  }

  lemma Begun(s: State, j: nat, l: Label) returns (s1: State)
    requires Reachable(s) && Begins(s, j, l)
    ensures s1 == Apply(s, l) && |s1.lockers| == |s.lockers| && s1.g == Pass(s.g, 0)
    ensures s1.lockers[j] == LocalStep(s.lockers[j], l, false, s.g.step)
    ensures if l.Call? then s1.lockers[j].op.Refreshing? else s1.lockers[j].op.Releasing?
    ensures LeaseDecides(s1.g, CommandOf(s1.lockers[j]))
  {
    s1 := Apply(s, l);
    ReachesNext(s, l);
    AnswersExactly(s1, j);
  }

  /** The whole exchange: what the server answers, and what the locker and the server make of it. */
  lemma BegunExactly(s: State, j: nat, l: Label) returns (s2: State, answer: bool)
    requires Reachable(s) && Begins(s, j, l)
    ensures Leads(s, [l] + Exchange(j), s2) && |s2.lockers| == |s.lockers|
    ensures var t := s.lockers[j].token;
            && (t != "" ==> s.g.IsHeld(t)) && (answer <==> t != "" && s.g.store.now < s.g.tokens[t].fate.until)
            && (answer ==> s2.g.store.entry ==
                           if l.Call? then Some(Entry(t, s.g.store.now + s.lockers[j].ttl)) else None)
            && (answer && !l.Call? ==> s2.g.IsReleased(t))
    ensures var k1 := LocalStep(s.lockers[j], l, false, s.g.step);
            s2.lockers[j] == Reply(LocalStep(k1, Execute(j), answer, s.g.step + 1), s.g.step + 2)
  {
    var s1 := Begun(s, j, l);
    s2, answer := Exchanged(s1, j);
    Cons(s, l, Exchange(j));
  }

  /**
   A locker with a token calls Lock: the answer is true, with the same token and a lease of its
   LockTimeout from now, if and only if its lease still runs; otherwise it goes on to a new create.
   */
  lemma RefreshesExactly(s: State, j: nat) returns (s2: State)
    requires Reachable(s) && j < |s.lockers| && s.lockers[j].op.Idle? && s.lockers[j].phase.Manual?
    requires s.lockers[j].token != ""
    ensures Leads(s, [Call(j)] + Exchange(j), s2) && |s2.lockers| == |s.lockers|
    ensures var k, k2, t := s.lockers[j], s2.lockers[j], s.lockers[j].token;
            && s.g.IsHeld(t) && k2.token == t
            && if s.g.store.now < s.g.tokens[t].fate.until then
                 && k2.op.Idle? && k2.result == Locked(true, false)
                 && s2.g.store.entry == Some(Entry(t, s.g.store.now + k.ttl))
               else k2.op.Creating?
  {
    var answer;
    s2, answer := BegunExactly(s, j, Call(j));
  }

  /** Unlock ends without an error, and with its token released, if and only if the lease still runs. */
  lemma UnlocksExactly(s: State, j: nat) returns (s2: State)
    requires Reachable(s) && j < |s.lockers| && s.lockers[j].op.Idle? && s.lockers[j].phase.Manual?
    ensures Leads(s, [CallUnlock(j)] + Exchange(j), s2) && |s2.lockers| == |s.lockers|
    ensures var t, k2 := s.lockers[j].token, s2.lockers[j];
            && k2.op.Idle? && k2.token == "" && k2.result.Unlocked?
            && (t != "" ==> s.g.IsHeld(t))
            && (!k2.result.err <==> t != "" && s.g.store.now < s.g.tokens[t].fate.until)
            && (!k2.result.err ==> s2.g.IsReleased(t) && s2.g.store.entry == None)
  {
    var answer;
    s2, answer := BegunExactly(s, j, CallUnlock(j));
  }

  lemma HandlingHolds(s: State, j: nat)
    requires Reachable(s) && j < |s.lockers| && s.lockers[j].phase.Handling?
    ensures s.lockers[j].op.Idle? && s.lockers[j].token != "" && s.g.IsHeld(s.lockers[j].token)
  {
    ReachableInv(s);
    assert LockerInv(s.g, j, s.lockers[j]);
  }

  /** A call of Run whose handler ends in time returns nil if and only if its lease still runs then. */
  lemma FinishesExactly(s: State, j: nat) returns (s2: State)
    requires Reachable(s) && j < |s.lockers| && s.lockers[j].phase.Handling?
    ensures Leads(s, [HandlerDone(j)] + Exchange(j), s2) && |s2.lockers| == |s.lockers|
    ensures var t, k2 := s.lockers[j].token, s2.lockers[j];
            && s.g.IsHeld(t) && (k2.phase.ReturnedNil? || k2.phase.ReturnedErr?)
            && (k2.phase.ReturnedNil? <==> s.g.store.now < s.g.tokens[t].fate.until)
            && (k2.phase.ReturnedNil? ==> k2.phase.run == t && s2.g.IsReleased(t) && s2.g.store.entry == None)
  {
    HandlingHolds(s, j);
    var answer;
    s2, answer := BegunExactly(s, j, HandlerDone(j));
  }

  /** In every run, Unlock without an error means that the token was released, and by this locker. */
  lemma UnlockIsEarned(s: State, l: Label)
    requires Reachable(s) && Enabled(s, l) && !l.Tick? && !l.Arrive?
    requires s.lockers[l.i].op.Releasing? || s.lockers[l.i].op.ReleaseAnswered?
    requires Apply(s, l).lockers[l.i].op.Idle? && Apply(s, l).lockers[l.i].result == Unlocked(false)
    ensures var t := s.lockers[l.i].token; Mine(Apply(s, l).g, l.i, t) && Apply(s, l).g.IsReleased(t)
  {
    ReachableInv(s);
    assert LockerInv(s.g, l.i, s.lockers[l.i]);
  }

  /** The step l from s, and what it leads to, are part of a run again. */
  lemma ReachesNext(s: State, l: Label)
    requires Reachable(s) && Enabled(s, l)
    ensures Reachable(Apply(s, l))
  {
    assert Leads(s, [], s);
    LeadsOn(s, [], s, l);
    ReachesOn(s, [] + [l], Apply(s, l));
  }

  function TwoRuns(): State {
    var k := LockerState(1, 0, "", Idle, Ready, 0, NoResult);
    State(Ledger(Store(0, None), 0, map[]), [k, k], multiset{})
  }

  lemma TwoRunsReachable()
    ensures Reachable(TwoRuns())
  {
    var s := TwoRuns();
    assert Init(s) && Follows(s, []) && After(s, []) == s;
  }

  /** The first run holds the lock, and its handler is under way. */
  lemma FirstRun() returns (s: State)
    ensures Reachable(s) && |s.lockers| == 2 && s.lockers[0].phase.Handling? && s.lockers[1] == TwoRuns().lockers[1]
    ensures s.g.store == Store(0, Some(Entry("a", 1))) && !s.g.Known("b")
  {
    TwoRunsReachable();
    assert "a" != "b" by { assert "a"[0] != "b"[0]; }
    s := RunsOn(TwoRuns(), 0, "a");
  }

  /** A call of Run on a free lock gets to its handler. */
  lemma RunsOn(s: State, j: nat, t: string) returns (s': State)
    requires Reachable(s) && j < |s.lockers| && Fresh(s.lockers[j]) && t != "" && !s.g.Known(t) && !s.g.store.Live()
    ensures Reachable(s') && |s'.lockers| == |s.lockers| && s'.lockers[j].phase.Handling?
    ensures forall i :: 0 <= i < |s.lockers| && i != j ==> s'.lockers[i] == s.lockers[i]
    ensures s'.g.store == Store(s.g.store.now, Some(Entry(t, s.g.store.now + s.lockers[j].ttl)))
    ensures forall u :: s'.g.Known(u) <==> u == t || s.g.Known(u)
  {
    s' := StraightOn(s, j, t);
    ReachesOn(s, Straight(j, t), s');
  }

  /** And then its lease of 1 ms has passed. */
  lemma LeasePasses() returns (s: State)
    ensures Reachable(s) && |s.lockers| == 2 && s.lockers[0].phase.Handling?
    ensures s.lockers[1] == TwoRuns().lockers[1] && !s.g.store.Live() && !s.g.Known("b")
  {
    var s1 := FirstRun();
    ReachesNext(s1, Tick(1));
    s := Apply(s1, Tick(1));
  }

  /** Such states are reached: a handler that outlives its lease runs beside the next one. */
  lemma OutlivedHandlersOverlap()
    ensures exists s :: Reachable(s) && |s.lockers| == 2
                        && s.lockers[0].phase.Handling? && s.lockers[1].phase.Handling?
  {
    var s := LeasePasses();
    var s' := RunsOn(s, 1, "b");
  }
}

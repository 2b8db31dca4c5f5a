/**
 The server's entry together with a record of every token's life: drawn by a locker, granted when
 its SETNX succeeded, renewed by a refresh, released when its own compare-and-delete succeeded.
 Steps of a run are numbered; the record holds step numbers and the expiry last promised.
 */
module LockLedger {
  import opened Std
  import opened LockStore

  datatype Fate =
    | Unused
    | Held(at: nat, until: int, renewed: nat)
    | Released(at: nat, end: nat)

  datatype Token = Token(owner: nat, drawn: nat, fate: Fate)

  datatype Command =
    | SetNX(t: string, ttl: int)
    | Expire(t: string, ttl: int)
    | Delete(t: string)

  datatype Ledger = Ledger(store: Store, step: nat, tokens: map<string, Token>) {
    predicate Known(t: string) {
      t in tokens
    }

    predicate Granted(t: string) {
      Known(t) && !tokens[t].fate.Unused?
    }

    predicate IsHeld(t: string) {
      Known(t) && tokens[t].fate.Held?
    }

    predicate IsReleased(t: string) {
      Known(t) && tokens[t].fate.Released?
    }

    function GrantedAt(t: string): nat
      requires Granted(t)
    {
      tokens[t].fate.at
    }
  }

  function Mark(tokens: map<string, Token>, t: string, fate: Fate): map<string, Token> {
    if t in tokens then tokens[t := tokens[t].(fate := fate)] else tokens
  }

  /** A step in which the server does nothing but let time pass. */
  function Pass(g: Ledger, ms: nat): Ledger {
    g.(step := g.step + 1, store := g.store.(now := g.store.now + ms))
  }

  /** Locker i draws a random token. */
  function DrawFor(g: Ledger, i: nat, t: string): Ledger {
    g.(step := g.step + 1, tokens := g.tokens[t := Token(i, g.step, Unused)])
  }

  /** The server executes one command and answers whether it took effect. */
  function Serve(g: Ledger, c: Command): (Ledger, bool) {
    match c
    case SetNX(t, ttl) =>
      var (st, ok) := g.store.SetNX(t, ttl);
      (Ledger(st, g.step + 1,
              if ok then Mark(g.tokens, t, Held(g.step, st.now + ttl, g.step)) else g.tokens), ok)
    case Expire(t, ttl) =>
      var (st, ok) := g.store.CompareExpire(t, ttl);
      (Ledger(st, g.step + 1,
              if ok && g.Granted(t) then Mark(g.tokens, t, Held(g.GrantedAt(t), st.now + ttl, g.step))
              else g.tokens), ok)
    case Delete(t) =>
      var (st, ok) := g.store.CompareDelete(t);
      (Ledger(st, g.step + 1,
              if ok && g.Granted(t) then Mark(g.tokens, t, Released(g.GrantedAt(t), g.step)) else g.tokens), ok)
  }

  // ---------------------------------------------------------------- invariant

  ghost predicate HistoryInv(g: Ledger) {
    && !g.Known("")
    && (forall t :: g.Granted(t) ==> g.GrantedAt(t) < g.step)
    && (forall t :: g.IsReleased(t) ==> g.GrantedAt(t) < g.tokens[t].fate.end < g.step)
    && (forall t, u :: g.Granted(t) && g.Granted(u) && g.GrantedAt(t) == g.GrantedAt(u) ==> t == u)
  }

  /** The entry is the latest grant, not yet released, and carries the promised expiry. */
  ghost predicate EntryInv(g: Ledger) {
    g.store.entry.Some? ==>
      var e := g.store.entry.value;
      && g.IsHeld(e.token) && e.expiry == g.tokens[e.token].fate.until
      && forall t :: g.Granted(t) ==> g.GrantedAt(t) <= g.GrantedAt(e.token)
  }

  /** A lease that still runs and was not released is what the store holds. */
  ghost predicate LeaseInv(g: Ledger) {
    forall t :: g.IsHeld(t) && g.store.now < g.tokens[t].fate.until ==>
      g.store.entry == Some(Entry(t, g.tokens[t].fate.until))
  }

  /** No grant falls inside another token's span from grant to release. */
  ghost predicate SpanInv(g: Ledger) {
    forall t, u :: g.IsReleased(t) && g.Granted(u) ==>
      g.GrantedAt(u) <= g.GrantedAt(t) || g.tokens[t].fate.end <= g.GrantedAt(u)
  }

  ghost predicate LedgerInv(g: Ledger) {
    HistoryInv(g) && EntryInv(g) && LeaseInv(g) && SpanInv(g)
  }

  /** What the lockers guarantee about the commands they send: a token is tried until it is granted once. */
  ghost predicate Admissible(g: Ledger, c: Command) {
    c.SetNX? ==> g.Known(c.t) && !g.Granted(c.t)
  }

  lemma PassKeeps(g: Ledger, ms: nat)
    requires LedgerInv(g)
    ensures LedgerInv(Pass(g, ms))
  {
    var g' := Pass(g, ms);
    assert forall t ::
        g'.Granted(t) == g.Granted(t) && g'.IsReleased(t) == g.IsReleased(t) && g'.IsHeld(t) == g.IsHeld(t);
  }

  lemma DrawKeeps(g: Ledger, i: nat, t: string)
    requires LedgerInv(g) && t != "" && !g.Known(t)
    ensures LedgerInv(DrawFor(g, i, t))
  {
    var g' := DrawFor(g, i, t);
    assert forall u ::
        g'.Granted(u) == g.Granted(u) && g'.IsReleased(u) == g.IsReleased(u) && g'.IsHeld(u) == g.IsHeld(u);
  }

  /** g' is g with the record of t replaced by one that was granted at step `at`. */
  ghost predicate Touches(g: Ledger, g': Ledger, t: string) {
    && g'.step == g.step + 1 && g'.store.now == g.store.now
    && g.Known(t) && g'.Granted(t)
    && g'.tokens == g.tokens[t := g'.tokens[t]]
    && (forall u :: u != t ==>
          g'.Granted(u) == g.Granted(u) && g'.IsReleased(u) == g.IsReleased(u) && g'.IsHeld(u) == g.IsHeld(u))
  }

  lemma GrantKeeps(g: Ledger, t: string, ttl: int)
    requires LedgerInv(g) && Admissible(g, SetNX(t, ttl)) && !g.store.Live()
    ensures LedgerInv(Serve(g, SetNX(t, ttl)).0)
  {
    var g' := Serve(g, SetNX(t, ttl)).0;
    assert Touches(g, g', t);
    assert forall u :: g.IsHeld(u) ==> g.tokens[u].fate.until <= g.store.now;
  }

  lemma RenewKeeps(g: Ledger, t: string, ttl: int)
    requires LedgerInv(g) && g.store.Holds(t)
    ensures LedgerInv(Serve(g, Expire(t, ttl)).0)
  {
    var g' := Serve(g, Expire(t, ttl)).0;
    assert Touches(g, g', t);
    assert g'.GrantedAt(t) == g.GrantedAt(t);
    assert forall u :: u != t && g.IsHeld(u) ==> g.tokens[u].fate.until <= g.store.now;
  }

  lemma FreeKeeps(g: Ledger, t: string)
    requires LedgerInv(g) && g.store.Holds(t)
    ensures LedgerInv(Serve(g, Delete(t)).0)
  {
    var g' := Serve(g, Delete(t)).0;
    assert Touches(g, g', t);
    assert g'.GrantedAt(t) == g.GrantedAt(t);
    assert forall u :: u != t && g.IsHeld(u) ==> g.tokens[u].fate.until <= g.store.now;
  }

  lemma ServeKeeps(g: Ledger, c: Command)
    requires LedgerInv(g) && Admissible(g, c)
    ensures LedgerInv(Serve(g, c).0)
  {
    if !Serve(g, c).1 {
      assert Serve(g, c).0 == Pass(g, 0);
      PassKeeps(g, 0);
    } else {
      match c
      case SetNX(t, ttl) => GrantKeeps(g, t, ttl);
      case Expire(t, ttl) => RenewKeeps(g, t, ttl);
      case Delete(t) => FreeKeeps(g, t);
    }
  }
}

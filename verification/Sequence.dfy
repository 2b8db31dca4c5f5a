/**
 The id generator: 32 bits of seconds, 8 random bits, 16 bits of count.

 Machine words are integers with their range written out: x & 0xff0000 is (x / 2^16 % 2^8) * 2^16,
 and a 32-bit counter steps modulo 2^32.
 */
module Sequence {
  const COUNT := 0x1_0000
  const SECOND := 0x100_0000
  const WORD := 0x1_0000_0000

  /** x & 0x0000000000ff0000 */
  function MiddleByte(x: nat): (r: nat)
    ensures r % COUNT == 0 && r <= SECOND - COUNT
  {
    x / COUNT % 256 * COUNT
  }

  /** They are bits 16 to 23 of x, in their place: what is left of x has none of these. */
  lemma MiddleBits(x: nat)
    ensures (x - MiddleByte(x)) % SECOND < COUNT
  {
    var h, l := x / COUNT, x % COUNT;
    assert x - MiddleByte(x) == (h / 256) * SECOND + l;
  }

  /** One turn of the generator: what the clock shows and what the random source yields. */
  datatype Turn = Turn(sec: nat, rand: nat)

  /** An emitted id with the second and count it was made from, and the branch that made it. */
  datatype Id = Id(c: nat, sec: nat, count: nat, random: bool)

  datatype Counter = Counter(lastSec: nat, lastCount: nat)

  function Tick(k: Counter, t: Turn): Counter {
    if t.sec % WORD != k.lastSec then Counter(t.sec % WORD, 1) else k
  }

  function Emit(k: Counter, t: Turn): Id {
    var k1 := Tick(k, t);
    var random := MiddleByte(k1.lastCount) == 0;
    var middle := if random then MiddleByte(t.rand) else 0;
    Id(k1.lastSec * SECOND + middle + k1.lastCount, k1.lastSec, k1.lastCount, random)
  }

  function Next(k: Counter, t: Turn): Counter {
    var k1 := Tick(k, t);
    k1.(lastCount := (k1.lastCount + 1) % WORD)
  }

  /** The counter after a list of turns, and the id the turn after that list emits. */
  function CounterAfter(k: Counter, turns: seq<Turn>): Counter {
    if turns == [] then k else Next(CounterAfter(k, turns[..|turns| - 1]), turns[|turns| - 1])
  }

  function IdAt(k: Counter, turns: seq<Turn>, i: nat): Id
    requires i < |turns|
  {
    Emit(CounterAfter(k, turns[..i]), turns[i])
  }

  /** The package variables last_sec and last_count, and gen as a loop over the turns it takes. */
  class Generator {
    var lastSec: nat
    var lastCount: nat

    constructor ()
      ensures State() == START
    {
      lastSec, lastCount := 0, 1;
    }

    function State(): Counter
      reads this
    {
      Counter(lastSec, lastCount)
    }

    method Gen(turns: seq<Turn>) returns (pool: seq<nat>)
      modifies this
      ensures |pool| == |turns| && State() == CounterAfter(old(State()), turns)
      ensures forall i :: 0 <= i < |pool| ==> pool[i] == IdAt(old(State()), turns, i).c
    {
      pool := [];
      for n := 0 to |turns|
        invariant |pool| == n && State() == CounterAfter(old(State()), turns[..n])
        invariant forall i :: 0 <= i < n ==> pool[i] == IdAt(old(State()), turns, i).c
      {
        assert turns[..n + 1][..n] == turns[..n];
        var currentSec := turns[n].sec % WORD;
        if currentSec != lastSec {
          lastCount := 1;
          lastSec := currentSec;
        }
        var c := lastSec * SECOND;
        if MiddleByte(lastCount) == 0 {
          c := c + MiddleByte(turns[n].rand);
          c := c + lastCount;
        } else {
          c := c + lastCount;
        }
        lastCount := (lastCount + 1) % WORD;
        pool := pool + [c];
      }
      assert turns[..|turns|] == turns;
    }
  }

  const START := Counter(0, 1)

  // ---------------------------------------------------------------- what a run emits

  /** A clock that never runs backwards and shows a 32-bit number of seconds. */
  ghost predicate ClockOk(turns: seq<Turn>) {
    && (forall i :: 0 <= i < |turns| ==> turns[i].sec < WORD)
    && forall i, j :: 0 <= i < j < |turns| ==> turns[i].sec <= turns[j].sec
  }

  /** How many turns fall in second sec. */
  ghost function Drawn(turns: seq<Turn>, sec: nat): nat {
    if turns == [] then 0
    else Drawn(turns[..|turns| - 1], sec) + if turns[|turns| - 1].sec == sec then 1 else 0
  }

  /** In no second are more than limit ids drawn. */
  ghost predicate AtMost(turns: seq<Turn>, limit: nat) {
    forall sec :: Drawn(turns, sec) <= limit
  }

  lemma {:induction false} DrawnGrows(turns: seq<Turn>, i: nat, sec: nat)
    requires i <= |turns|
    ensures Drawn(turns[..i], sec) <= Drawn(turns, sec)
    decreases |turns|
  {
    if i < |turns| {
      DrawnGrows(turns[..|turns| - 1], i, sec);
      assert turns[..|turns| - 1][..i] == turns[..i];
    } else {
      assert turns[..i] == turns;
    }
  }

  /** After a run, the counter holds the second and one more than the number of ids drawn in it. */
  lemma {:induction false} CounterCounts(turns: seq<Turn>)
    requires ClockOk(turns) && AtMost(turns, SECOND - 1) && turns != []
    ensures var sec := turns[|turns| - 1].sec; CounterAfter(START, turns) == Counter(sec, Drawn(turns, sec) + 1)
    ensures forall sec :: sec > turns[|turns| - 1].sec ==> Drawn(turns, sec) == 0
    decreases |turns|
  {
    var n := |turns| - 1;
    var init, last := turns[..n], turns[n];
    assert Drawn(turns, last.sec) <= SECOND - 1;
    if init != [] {
      forall sec ensures Drawn(init, sec) <= SECOND - 1 {
        DrawnGrows(turns, n, sec);
        assert Drawn(turns, sec) <= SECOND - 1;
      }
      assert last.sec == init[n - 1].sec || last.sec > init[n - 1].sec;
      CounterCounts(init);
    }
  }

  /** The id of turn i carries its second and its number within that second. */
  lemma IdNumber(turns: seq<Turn>, i: nat)
    requires ClockOk(turns) && AtMost(turns, SECOND - 1) && i < |turns|
    ensures var id := IdAt(START, turns, i);
            id.sec == turns[i].sec && id.count == Drawn(turns[..i + 1], turns[i].sec) && 1 <= id.count < SECOND
  {
    var sec := turns[i].sec;
    DrawnGrows(turns, i + 1, sec);
    assert Drawn(turns, sec) <= SECOND - 1;
    assert turns[..i + 1][..i] == turns[..i];
    if i > 0 {
      forall s ensures Drawn(turns[..i], s) <= SECOND - 1 {
        DrawnGrows(turns, i, s);
        assert Drawn(turns, s) <= SECOND - 1;
      }
      CounterCounts(turns[..i]);
    }
  }

  /** Later turns of the same second have larger numbers. */
  lemma NumbersGrow(turns: seq<Turn>, i: nat, j: nat)
    requires ClockOk(turns) && AtMost(turns, SECOND - 1) && i < j < |turns| && turns[i].sec == turns[j].sec
    ensures IdAt(START, turns, i).count < IdAt(START, turns, j).count
  {
    IdNumber(turns, i);
    IdNumber(turns, j);
    DrawnGrows(turns[..j], i + 1, turns[i].sec);
    assert turns[..j][..i + 1] == turns[..i + 1];
    assert turns[..j + 1][..j] == turns[..j];
  }

  lemma SmallCount(n: nat)
    requires n < SECOND
    ensures MiddleByte(n) == 0 <==> n < COUNT
  {
    assert n / COUNT < 256;
  }

  lemma LowBits(m: nat, n: nat)
    requires m % COUNT == 0
    ensures (m + n) % COUNT == n % COUNT
  {
    var q := m / COUNT;
    assert m + n == q * COUNT + n;
  }

  lemma Halves(sec: nat, low: nat)
    requires low < SECOND
    ensures (sec * SECOND + low) / SECOND == sec && (sec * SECOND + low) % COUNT == low % COUNT
  {
    assert (sec * SECOND) % COUNT == 0 by { assert sec * SECOND == (sec * 256) * COUNT; }
    LowBits(sec * SECOND, low);
  }

  /** How an id is put together: its second, and below it a value under 2^24. */
  lemma Packed(id: Id, k: Counter, t: Turn)
    requires id == Emit(k, t) && 1 <= id.count < SECOND
    ensures id.random <==> id.count < COUNT
    ensures id.c == id.sec * SECOND + (if id.random then MiddleByte(t.rand) else 0) + id.count
    ensures id.c / SECOND == id.sec && id.c % COUNT == id.count % COUNT
  {
    var middle := if id.random then MiddleByte(t.rand) else 0;
    SmallCount(id.count);
    Halves(id.sec, middle + id.count);
    LowBits(middle, id.count);
  }

  /**
   Two ids of a run collide exactly when they belong to one second, the earlier one comes from the
   random branch and its random bits spell the high byte of the later one's count.
   */
  lemma CollideExactly(turns: seq<Turn>, i: nat, j: nat)
    requires ClockOk(turns) && AtMost(turns, SECOND - 1) && i < j < |turns|
    ensures var a, b := IdAt(START, turns, i), IdAt(START, turns, j);
            a.c == b.c <==>
              a.sec == b.sec && a.random && !b.random && MiddleByte(turns[i].rand) + a.count == b.count
  {
    var a, b := IdAt(START, turns, i), IdAt(START, turns, j);
    IdNumber(turns, i);
    IdNumber(turns, j);
    Packed(a, CounterAfter(START, turns[..i]), turns[i]);
    Packed(b, CounterAfter(START, turns[..j]), turns[j]);
    if a.sec == b.sec {
      NumbersGrow(turns, i, j);
    }
  }

  /** With at most 65535 ids a second, every id is new, fits 56 bits and decodes to its second and number. */
  lemma {:induction false} Unique(turns: seq<Turn>, i: nat, j: nat)
    requires ClockOk(turns) && AtMost(turns, COUNT - 1) && i < j < |turns|
    ensures IdAt(START, turns, i).c != IdAt(START, turns, j).c
  {
    assert forall sec :: Drawn(turns, sec) <= COUNT - 1;
    CollideExactly(turns, i, j);
    IdNumber(turns, j);
    DrawnGrows(turns, j + 1, turns[j].sec);
    Packed(IdAt(START, turns, j), CounterAfter(START, turns[..j]), turns[j]);
  }

  lemma Decodes(turns: seq<Turn>, i: nat)
    requires ClockOk(turns) && AtMost(turns, COUNT - 1) && i < |turns|
    ensures var c := IdAt(START, turns, i).c;
            c < 0x100_0000_0000_0000 && c / SECOND == turns[i].sec && c % COUNT == Drawn(turns[..i + 1], turns[i].sec)
  {
    assert forall sec :: Drawn(turns, sec) <= COUNT - 1;
    IdNumber(turns, i);
    DrawnGrows(turns, i + 1, turns[i].sec);
    Packed(IdAt(START, turns, i), CounterAfter(START, turns[..i]), turns[i]);
  }

  /** Of the clock only the low 32 bits count. */
  lemma ClockWraps(k: Counter, t: Turn)
    requires k.lastSec < WORD
    ensures Emit(k, t) == Emit(k, t.(sec := t.sec % 0x1_0000_0000)) && Emit(k, t).sec < 0x1_0000_0000
    ensures Next(k, t) == Next(k, t.(sec := t.sec % 0x1_0000_0000))
  {
  }

  /** The first three ids of a second in which the random source yields 0xab_cdef. */
  lemma FirstIds()
    ensures var t := Turn(7, 0xab_cdef); var ts := [t, t, t];
            && IdAt(START, ts, 0).c == 0x7ab_0001 && IdAt(START, ts, 1).c == 0x7ab_0002
            && IdAt(START, ts, 2).c == 0x7ab_0003
  {
    var t := Turn(7, 0xab_cdef);
    var ts := [t, t, t];
    assert MiddleByte(0xab_cdef) == 0xab_0000;
    assert ts[..0] == [] && ts[..1] == [t] && ts[..2] == [t, t] && [t, t][..1] == [t] && [t][..0] == [];
    assert CounterAfter(START, [t]) == Counter(7, 2);
    assert CounterAfter(START, [t, t]) == Counter(7, 3);
  }

  /** Below 2^24 ids a second, no value comes three times, and ids of different seconds differ. */
  lemma {:induction false} AtMostTwice(turns: seq<Turn>, i: nat, j: nat, k: nat)
    requires ClockOk(turns) && AtMost(turns, SECOND - 1) && i < j < |turns|
    ensures turns[i].sec != turns[j].sec ==> IdAt(START, turns, i).c != IdAt(START, turns, j).c
    ensures j < k < |turns| && IdAt(START, turns, i).c == IdAt(START, turns, j).c ==>
              IdAt(START, turns, j).c != IdAt(START, turns, k).c
  {
    CollideExactly(turns, i, j);
    IdNumber(turns, i);
    IdNumber(turns, j);
    if j < k < |turns| {
      CollideExactly(turns, j, k);
    }
  }
}

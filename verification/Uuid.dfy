/** The printed form of an id, and the hash of the server's name in front of it. */
module Uuid {
  import opened Std

  // ---------------------------------------------------------------- decimal text

  predicate IsDigit(c: char) {
    '0' <= c <= '9'
  }

  function Digit(n: nat): (c: char)
    requires n < 10
    ensures IsDigit(c)
  {
    ('0' as int + n) as char
  }

  /** strconv.Itoa of a number that is not negative. */
  function Itoa(n: nat): (s: string)
    ensures s != [] && forall i :: 0 <= i < |s| ==> IsDigit(s[i])
  {
    if n < 10 then [Digit(n)] else Itoa(n / 10) + [Digit(n % 10)]
  }

  function Value(c: char): nat
    requires IsDigit(c)
  {
    c as int - '0' as int
  }

  function Atoi(s: string): nat
    requires forall i :: 0 <= i < |s| ==> IsDigit(s[i])
  {
    if s == [] then 0 else Atoi(s[..|s| - 1]) * 10 + Value(s[|s| - 1])
  }

  lemma {:induction false} ReadsBack(n: nat)
    ensures Atoi(Itoa(n)) == n
  {
    var s := Itoa(n);
    if n >= 10 {
      ReadsBack(n / 10);
      assert s[..|s| - 1] == Itoa(n / 10);
    } else {
      assert s[..0] == [];
    }
  }

  /** GetUUID: the server's hash, a dash, the next id of the pool. */
  function Print(id: nat, c: nat): string {
    Itoa(id) + "-" + Itoa(c)
  }

  lemma {:induction false} SplitAtDash(a: string, b: string, x: string, y: string)
    requires (forall i :: 0 <= i < |a| ==> a[i] != '-') && (forall i :: 0 <= i < |b| ==> b[i] != '-')
    requires a + "-" + x == b + "-" + y
    ensures a == b && x == y
    decreases |a|
  {
    var s, t := a + "-" + x, b + "-" + y;
    assert s[0] == (if a == [] then '-' else a[0]) && t[0] == (if b == [] then '-' else b[0]);
    if a == [] {
      assert s[1..] == x && t[1..] == y;
    } else {
      assert s[1..] == a[1..] + "-" + x && t[1..] == b[1..] + "-" + y;
      SplitAtDash(a[1..], b[1..], x, y);
    }
  }

  /** The text determines the pair. */
  lemma PrintInjective(id: nat, c: nat, id': nat, c': nat)
    requires Print(id, c) == Print(id', c')
    ensures id == id' && c == c'
  {
    SplitAtDash(Itoa(id), Itoa(id'), Itoa(c), Itoa(c'));
    ReadsBack(id);
    ReadsBack(id');
    ReadsBack(c);
    ReadsBack(c');
  }

  /** It reads as the server's number before the only dash, and the id's number behind it. */
  lemma PrintReads(id: nat, c: nat) returns (dash: nat)
    ensures var s := Print(id, c);
            && dash < |s| && s[dash] == '-' && (forall i :: 0 <= i < |s| && i != dash ==> IsDigit(s[i]))
            && Atoi(s[..dash]) == id && Atoi(s[dash + 1..]) == c
  {
    dash := |Itoa(id)|;
    var s := Print(id, c);
    assert s[..dash] == Itoa(id) && s[dash + 1..] == Itoa(c);
    ReadsBack(id);
    ReadsBack(c);
  }

  lemma PrintExample()
    ensures Print(120, 45) == "120-45"
  {
    assert Itoa(120) == Itoa(12) + "0" && Itoa(12) == Itoa(1) + "2" && Itoa(45) == Itoa(4) + "5";
  }

  // ---------------------------------------------------------------- BKDRHash

  const SEED := 131
  const WORD := 0x1_0000_0000
  const HALF := 0x8000_0000

  /** The bytes as the digits of a number in base 131. */
  function Poly(str: seq<byte>): nat {
    if str == [] then 0 else Poly(str[..|str| - 1]) * SEED + str[|str| - 1]
  }

  function Pow(n: nat): nat {
    if n == 0 then 1 else SEED * Pow(n - 1)
  }

  /** Wrapping at every step gives the polynomial modulo 2^31. */
  method BKDRHash(str: seq<byte>) returns (hash: nat)
    ensures hash == Poly(str) % HALF
  {
    hash := 0;
    for i := 0 to |str|
      invariant hash == Poly(str[..i]) % WORD
    {
      assert str[..i + 1][..i] == str[..i];
      WrapStep(Poly(str[..i]), str[i]);
      hash := ((hash * SEED) % WORD + str[i]) % WORD;
    }
    assert str[..|str|] == str;
    WordHalf(Poly(str));
    hash := hash % HALF;
  }

  lemma WrapStep(p: nat, b: nat)
    ensures (((p % WORD) * SEED) % WORD + b) % WORD == (p * SEED + b) % WORD
  {
    var q, r := p / WORD, p % WORD;
    assert p * SEED + b == (q * SEED) * WORD + (r * SEED + b);
    var u, v := (r * SEED) / WORD, (r * SEED) % WORD;
    assert r * SEED + b == u * WORD + (v + b);
  }

  lemma WordHalf(p: nat)
    ensures (p % WORD) % HALF == p % HALF
  {
    var q, r := p / WORD, p % WORD;
    assert p == (2 * q) * HALF + r;
  }

  lemma {:induction false} PolyConcat(a: seq<byte>, b: seq<byte>)
    ensures Poly(a + b) == Poly(a) * Pow(|b|) + Poly(b)
    decreases |b|
  {
    if b == [] {
      assert a + b == a;
    } else {
      var n := |b| - 1;
      assert (a + b)[..|a + b| - 1] == a + b[..n];
      PolyConcat(a, b[..n]);
      Regroup(Poly(a), Pow(n));
    }
  }

  lemma Regroup(x: int, p: int)
    ensures x * (SEED * p) == SEED * (x * p)
  {
  }

  lemma ModProduct(x: nat, p: nat, y: nat)
    ensures (x * p + y) % HALF == ((x % HALF) * p + y % HALF) % HALF
  {
    var q, r := x / HALF, x % HALF;
    Distribute(q, r, p);
    var k := q * p + y / HALF;
    assert x * p + y == k * HALF + (r * p + y % HALF);
  }

  lemma Distribute(q: int, r: int, p: int)
    ensures (q * HALF + r) * p == (q * p) * HALF + r * p
  {
  }

  lemma PolyExample()
    ensures Poly([97, 98]) == 97 * 131 + 98
  {
    assert [97, 98][..1] == [97] && [97][..0] == [];
    assert Poly([]) == 0;
  }

  /** The hash of a concatenation, from the hashes of its parts. */
  lemma HashConcat(a: seq<byte>, b: seq<byte>)
    ensures Poly(a + b) % HALF == ((Poly(a) % HALF) * Pow(|b|) + Poly(b) % HALF) % HALF
  {
    PolyConcat(a, b);
    ModProduct(Poly(a), Pow(|b|), Poly(b));
  }
}

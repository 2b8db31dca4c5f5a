/** Go identifiers from proto names: _my_field_name_2 becomes XMyFieldName_2. Strings are bytes. */
module CamelCase {
  import opened Std

  const UNDERSCORE: byte := 95
  const CAPITAL_X: byte := 88
  const SPACE: byte := 32

  predicate IsASCIILower(c: byte) {
    97 <= c <= 122
  }

  predicate IsASCIIDigit(c: byte) {
    48 <= c <= 57
  }

  /** c ^= ' ' for a lower-case letter, whose bit 5 is set. */
  function ToUpper(c: byte): (u: byte)
    requires IsASCIILower(c)
    ensures 65 <= u <= 90 && u - 65 == c - 97
  {
    c - SPACE
  }

  /** A lower-case letter at i begins a word: nothing, an underscore or a digit stands before it. */
  predicate BeginsWord(s: seq<byte>, i: nat)
    requires i < |s|
  {
    i == 0 || s[i - 1] == UNDERSCORE || IsASCIIDigit(s[i - 1])
  }

  predicate Dropped(s: seq<byte>, i: nat)
    requires i < |s|
  {
    i > 0 && s[i] == UNDERSCORE && i + 1 < |s| && IsASCIILower(s[i + 1])
  }

  /** What the byte at i contributes to the name; it depends on its two neighbours only. */
  function Piece(s: seq<byte>, i: nat): seq<byte>
    requires i < |s|
  {
    if i == 0 && s[0] == UNDERSCORE then [CAPITAL_X]
    else if Dropped(s, i) then []
    else if IsASCIILower(s[i]) && BeginsWord(s, i) then [ToUpper(s[i])]
    else [s[i]]
  }

  /** The contributions of the first n bytes. */
  function Pieces(s: seq<byte>, n: nat): (t: seq<byte>)
    requires n <= |s|
    ensures |t| <= n
    decreases n, 0
  {
    if n == 0 then [] else Longer(s, n - 1)
  }

  function Longer(s: seq<byte>, n: nat): (t: seq<byte>)
    requires n < |s|
    ensures |t| <= n + 1
    decreases n, 1
  {
    Pieces(s, n) + Piece(s, n)
  }

  function Camel(s: seq<byte>): (t: seq<byte>)
    ensures |t| <= |s|
  {
    Pieces(s, |s|)
  }

  // The three things the scanner does with a byte.

  lemma Drop(s: seq<byte>, i: nat)
    requires i < |s| && Dropped(s, i)
    ensures Pieces(s, i + 1) == Pieces(s, i)
  {
  }

  lemma Raise(s: seq<byte>, i: nat)
    requires i < |s| && IsASCIILower(s[i]) && BeginsWord(s, i)
    ensures Pieces(s, i + 1) == Pieces(s, i) + [ToUpper(s[i])]
  {
  }

  lemma Keep(s: seq<byte>, i: nat)
    requires i < |s| && !Dropped(s, i)
    requires i == 0 ==> s[0] != UNDERSCORE
    requires IsASCIILower(s[i]) ==> !BeginsWord(s, i)
    ensures Pieces(s, i + 1) == Pieces(s, i) + [s[i]]
  {
  }

  // ---------------------------------------------------------------- word by word

  function Capital(c: byte): byte {
    if IsASCIILower(c) then ToUpper(c) else c
  }

  /**
   The words from i on: an underscore before a letter is dropped, a digit is a word of its own, and any
   other byte takes the letters behind it.
   */
  function Words(s: seq<byte>, i: nat): seq<byte>
    requires i <= |s|
    decreases |s| - i, 0
  {
    if i == |s| then []
    else if s[i] == UNDERSCORE && i + 1 < |s| && IsASCIILower(s[i + 1]) then Words(s, i + 1)
    else if IsASCIIDigit(s[i]) then [s[i]] + Words(s, i + 1)
    else [Capital(s[i])] + Letters(s, i + 1)
  }

  /** The letters from i on, and the words behind them. */
  function Letters(s: seq<byte>, i: nat): seq<byte>
    requires i <= |s|
    decreases |s| - i, 1
  {
    if i < |s| && IsASCIILower(s[i]) then [s[i]] + Letters(s, i + 1) else Words(s, i)
  }

  lemma Joined(a: seq<byte>, b: seq<byte>, c: seq<byte>)
    ensures (a + b) + c == a + (b + c)
  {
  }

  /** Where a word begins, the pieces from there on are the words. */
  lemma {:induction false} FromWord(s: seq<byte>, i: nat)
    requires i <= |s| && (i == 0 ==> s != [] && s[0] != UNDERSCORE)
    requires i < |s| && IsASCIILower(s[i]) ==> BeginsWord(s, i)
    ensures Camel(s) == Pieces(s, i) + Words(s, i)
    decreases |s| - i, 0
  {
    if i < |s| {
      if Dropped(s, i) {
        Drop(s, i);
        FromWord(s, i + 1);
      } else if IsASCIIDigit(s[i]) {
        Keep(s, i);
        FromWord(s, i + 1);
        Joined(Pieces(s, i), [s[i]], Words(s, i + 1));
      } else {
        FromFirst(s, i);
      }
    }
  }

  lemma {:induction false} FromFirst(s: seq<byte>, i: nat)
    requires i < |s| && !Dropped(s, i) && (i == 0 ==> s[0] != UNDERSCORE) && !IsASCIIDigit(s[i])
    requires IsASCIILower(s[i]) ==> BeginsWord(s, i)
    ensures Camel(s) == Pieces(s, i) + ([Capital(s[i])] + Letters(s, i + 1))
    decreases |s| - i - 1, 2
  {
    if IsASCIILower(s[i]) {
      Raise(s, i);
    } else {
      Keep(s, i);
    }
    FromLetter(s, i + 1);
    Joined(Pieces(s, i), [Capital(s[i])], Letters(s, i + 1));
  }

  /** Behind anything but a digit or a dropped underscore, the letters are kept. */
  lemma {:induction false} FromLetter(s: seq<byte>, i: nat)
    requires 0 < i <= |s| && (i < |s| && IsASCIILower(s[i]) ==> !BeginsWord(s, i))
    ensures Camel(s) == Pieces(s, i) + Letters(s, i)
    decreases |s| - i, 1
  {
    if i < |s| && IsASCIILower(s[i]) {
      Keep(s, i);
      FromLetter(s, i + 1);
      Joined(Pieces(s, i), [s[i]], Letters(s, i + 1));
    } else {
      FromWord(s, i);
    }
  }

  /** The name is made word by word, after an X for a leading underscore. */
  lemma WordByWord(s: seq<byte>)
    ensures Camel(s) == if s != [] && s[0] == UNDERSCORE then [CAPITAL_X] + Words(s, 1) else Words(s, 0)
  {
    if s != [] {
      if s[0] == UNDERSCORE {
        assert Pieces(s, 1) == Pieces(s, 0) + [CAPITAL_X];
        FromWord(s, 1);
      } else {
        FromWord(s, 0);
      }
    }
  }

  method CamelCase(s: seq<byte>) returns (t: seq<byte>)
    ensures t == Camel(s)
  {
    WordByWord(s);
    if s == [] {
      return [];
    }
    t := [];
    var i := 0;
    if s[0] == UNDERSCORE {
      // X stands for a leading underscore
      t := t + [CAPITAL_X];
      i := i + 1;
    }
    ghost var name := Camel(s);
    assert [] + Words(s, 0) == Words(s, 0);
    while i < |s|
      invariant i <= |s| && t + Words(s, i) == name
    {
      var c := s[i];
      if c == UNDERSCORE && i + 1 < |s| && IsASCIILower(s[i + 1]) {
        i := i + 1;
        continue;
      }
      if IsASCIIDigit(c) {
        Joined(t, [c], Words(s, i + 1));
        t := t + [c];
        i := i + 1;
        continue;
      }
      if IsASCIILower(c) {
        c := ToUpper(c);
      }
      Joined(t, [c], Letters(s, i + 1));
      t := t + [c];
      // the rest of the word
      while i + 1 < |s| && IsASCIILower(s[i + 1])
        invariant i < |s| && t + Letters(s, i + 1) == name
      {
        i := i + 1;
        Joined(t, [s[i]], Letters(s, i + 1));
        t := t + [s[i]];
      }
      i := i + 1;
    }
    assert t + [] == t;
  }

  /** _a_b1c becomes XAB1C, and a__B stays with its second underscore. */
  lemma CamelExample()
    ensures Camel([95, 97, 95, 98, 49, 99]) == [88, 65, 66, 49, 67]
    ensures Camel([97, 95, 95, 66]) == [65, 95, 95, 66]
  {
    var s := [95, 97, 95, 98, 49, 99];
    assert Pieces(s, 2) == [88] + [65] && Pieces(s, 4) == Pieces(s, 2) + [66];
    assert Pieces(s, 6) == Pieces(s, 4) + [49] + [67];
    var t := [97, 95, 95, 66];
    assert Pieces(t, 2) == [65] + [95] && Pieces(t, 4) == Pieces(t, 2) + [95] + [66];
  }

  // ---------------------------------------------------------------- fixed points

  /** No leading underscore or lower-case letter, and no lower-case letter right after an underscore or a digit. */
  predicate Exported(s: seq<byte>) {
    && (s != [] ==> s[0] != UNDERSCORE)
    && forall i :: 0 <= i < |s| && IsASCIILower(s[i]) ==> !BeginsWord(s, i)
  }

  /** Invariant of the construction: a name so far, ending in what the last byte contributed. */
  lemma {:induction false} PiecesExported(s: seq<byte>, n: nat)
    requires n <= |s|
    ensures Exported(Pieces(s, n))
    ensures n > 0 ==> Pieces(s, n) != []
    ensures n > 0 && !Dropped(s, n - 1) ==> Pieces(s, n)[|Pieces(s, n)| - 1..] == Piece(s, n - 1)
  {
    if n > 0 {
      PiecesExported(s, n - 1);
      var p, q := Pieces(s, n - 1), Piece(s, n - 1);
      if q != [] && IsASCIILower(q[0]) {
        // kept as it was: the byte before it is neither underscore nor digit, and was kept or capitalised
        assert n > 1 && !Dropped(s, n - 2);
        assert p[|p| - 1..] == Piece(s, n - 2);
        assert p[|p| - 1] == p[|p| - 1..][0];
      }
    }
  }

  lemma {:induction false} PiecesOfExported(s: seq<byte>, n: nat)
    requires n <= |s| && Exported(s)
    ensures Pieces(s, n) == s[..n]
  {
    if n > 0 {
      PiecesOfExported(s, n - 1);
      assert n < |s| && IsASCIILower(s[n]) ==> !BeginsWord(s, n);
    }
  }

  lemma FixedPoints(s: seq<byte>)
    ensures Camel(s) == s <==> Exported(s)
  {
    PiecesExported(s, |s|);
    if Exported(s) {
      PiecesOfExported(s, |s|);
    }
  }

  lemma Idempotent(s: seq<byte>)
    ensures Camel(Camel(s)) == Camel(s)
  {
    PiecesExported(s, |s|);
    FixedPoints(Camel(s));
  }
}

/** Single bits of 32-bit words, as the C code reads and writes them. */
module Words {
  type Word = bv32

  function Mask(i: nat): Word
    requires i < 32
  {
    1 << i
  }

  predicate Bit(w: Word, i: nat)
    requires i < 32
  {
    w & Mask(i) != 0
  }

  lemma MaskSingle(i: nat)
    requires i < 32
    ensures Mask(i) != 0 && Mask(i) & (Mask(i) - 1) == 0
  {
  }

  lemma MasksApart(i: nat, j: nat)
    requires i < 32 && j < 32 && i != j
    ensures Mask(i) & Mask(j) == 0
  {
  }

  lemma XorOther(w: Word, m: Word, n: Word)
    requires m & n == 0
    ensures (w ^ m) & n == w & n
  {
  }

  lemma OrOther(w: Word, m: Word, n: Word)
    requires m & n == 0
    ensures (w | m) & n == w & n
  {
  }

  lemma ClearOther(w: Word, m: Word, n: Word)
    requires m & n == 0
    ensures (w & !m) & n == w & n
  {
  }

  lemma XorSame(w: Word, m: Word)
    requires m != 0 && m & (m - 1) == 0
    ensures ((w ^ m) & m != 0) == (w & m == 0)
  {
  }

  lemma OrSame(w: Word, m: Word)
    requires m != 0
    ensures (w | m) & m != 0
  {
  }

  lemma ClearSame(w: Word, m: Word)
    ensures (w & !m) & m == 0
  {
  }

  lemma FlipThis(w: Word, i: nat)
    requires i < 32
    ensures Bit(w ^ Mask(i), i) == !Bit(w, i)
  {
    MaskSingle(i);
    XorSame(w, Mask(i));
  }

  lemma FlipOthers(w: Word, i: nat, j: nat)
    requires i < 32 && j < 32 && i != j
    ensures Bit(w ^ Mask(i), j) == Bit(w, j)
  {
    MasksApart(i, j);
    XorOther(w, Mask(i), Mask(j));
  }

  lemma SetThis(w: Word, i: nat)
    requires i < 32
    ensures Bit(w | Mask(i), i) == true
  {
    MaskSingle(i);
    OrSame(w, Mask(i));
  }

  lemma SetOthers(w: Word, i: nat, j: nat)
    requires i < 32 && j < 32 && i != j
    ensures Bit(w | Mask(i), j) == Bit(w, j)
  {
    MasksApart(i, j);
    OrOther(w, Mask(i), Mask(j));
  }

  lemma ClearThis(w: Word, i: nat)
    requires i < 32
    ensures Bit(w & !Mask(i), i) == false
  {
    MaskSingle(i);
    ClearSame(w, Mask(i));
  }

  lemma ClearOthers(w: Word, i: nat, j: nat)
    requires i < 32 && j < 32 && i != j
    ensures Bit(w & !Mask(i), j) == Bit(w, j)
  {
    MasksApart(i, j);
    ClearOther(w, Mask(i), Mask(j));
  }

  lemma ZeroHasNoBit(i: nat)
    requires i < 32
    ensures !Bit(0, i)
  {
  }

  // Eight bits at a time.
  lemma NoBitInByte0(w: Word)
    requires forall i: nat | 0 <= i < 8 :: !Bit(w, i)
    ensures w & 0xff == 0
  {
    assert !Bit(w, 0) && !Bit(w, 1) && !Bit(w, 2) && !Bit(w, 3) && !Bit(w, 4) && !Bit(w, 5) && !Bit(w, 6) && !Bit(w, 7);
  }

  lemma NoBitInByte1(w: Word)
    requires forall i: nat | 8 <= i < 16 :: !Bit(w, i)
    ensures w & 0xff00 == 0
  {
    assert !Bit(w, 8) && !Bit(w, 9) && !Bit(w, 10) && !Bit(w, 11);
    assert !Bit(w, 12) && !Bit(w, 13) && !Bit(w, 14) && !Bit(w, 15);
  }

  lemma NoBitInByte2(w: Word)
    requires forall i: nat | 16 <= i < 24 :: !Bit(w, i)
    ensures w & 0xff0000 == 0
  {
    assert !Bit(w, 16) && !Bit(w, 17) && !Bit(w, 18) && !Bit(w, 19);
    assert !Bit(w, 20) && !Bit(w, 21) && !Bit(w, 22) && !Bit(w, 23);
  }

  lemma NoBitInByte3(w: Word)
    requires forall i: nat | 24 <= i < 32 :: !Bit(w, i)
    ensures w & 0xff000000 == 0
  {
    assert !Bit(w, 24) && !Bit(w, 25) && !Bit(w, 26) && !Bit(w, 27);
    assert !Bit(w, 28) && !Bit(w, 29) && !Bit(w, 30) && !Bit(w, 31);
  }

  lemma NoByteIsZero(w: Word)
    requires w & 0xff == 0 && w & 0xff00 == 0 && w & 0xff0000 == 0 && w & 0xff000000 == 0
    ensures w == 0
  {
  }

  /** A word is zero exactly when none of its bits is set. */
  lemma ZeroIffNoBit(w: Word)
    ensures w == 0 <==> forall i: nat | i < 32 :: !Bit(w, i)
  {
    if w == 0 {
      forall i: nat | i < 32 ensures !Bit(w, i) {
        ZeroHasNoBit(i);
      }
    } else if forall i: nat | i < 32 :: !Bit(w, i) {
      NoBitInByte0(w);
      NoBitInByte1(w);
      NoBitInByte2(w);
      NoBitInByte3(w);
      NoByteIsZero(w);
    }
  }

  // ---------- words as sets of bit positions ----------

  // s is the set of the one bits of w; only a mention of a bit brings the bit vectors in.
  ghost predicate StandsFor(s: set<nat>, w: Word) {
    && (forall i | i in s :: i < 32)
    && (forall i: nat {:trigger Bit(w, i)} | i < 32 :: i in s <==> Bit(w, i))
  }

  lemma SomethingStandsFor(w: Word)
    ensures exists s: set<nat> :: StandsFor(s, w)
  {
    var s := set i: nat | i < 32 && Bit(w, i);
    assert StandsFor(s, w);
  }

  ghost function Positions(w: Word): (s: set<nat>)
    ensures StandsFor(s, w)
  {
    SomethingStandsFor(w);
    var s :| StandsFor(s, w);
    s
  }

  lemma StandsForOne(s: set<nat>, w: Word)
    requires StandsFor(s, w)
    ensures s == Positions(w)
  {
    forall i: nat | i < 32 ensures i in s <==> i in Positions(w) {
      assert Bit(w, i) || !Bit(w, i);
    }
  }

  // c has the one bits of the k-th word.
  ghost predicate DescribesAt(c: seq<set<nat>>, s: seq<Word>, k: nat)
    requires k < |s| == |c|
  {
    c[k] == Positions(s[k])
  }

  ghost predicate Describes(c: seq<set<nat>>, s: seq<Word>) {
    |c| == |s| && forall k: nat | k < |s| :: DescribesAt(c, s, k)
  }

  lemma SomethingDescribes(s: seq<Word>)
    ensures exists c :: Describes(c, s)
  {
    var c := seq(|s|, k requires 0 <= k < |s| => Positions(s[k]));
    assert Describes(c, s);
  }

  /** The words of an array, each as the set of its one bits. */
  ghost function Contents(s: seq<Word>): (c: seq<set<nat>>)
    ensures |c| == |s| && Describes(c, s)
  {
    SomethingDescribes(s);
    var c :| Describes(c, s);
    c
  }

  lemma ContentsAt(s: seq<Word>, k: nat)
    requires k < |s|
    ensures Contents(s)[k] == Positions(s[k])
  {
    assert DescribesAt(Contents(s), s, k);
  }

  // One word changes, and its set with it.
  lemma ContentsUpdated(s: seq<Word>, k: nat, w: Word)
    requires k < |s|
    ensures Contents(s[k := w]) == Contents(s)[k := Positions(w)]
  {
    var s' := s[k := w];
    var c, c' := Contents(s)[k := Positions(w)], Contents(s');
    forall j | 0 <= j < |s| ensures c'[j] == c[j] {
      ContentsAt(s, j);
      ContentsAt(s', j);
    }
  }

  ghost function Toggled(s: set<nat>, i: nat): set<nat> {
    if i in s then s - {i} else s + {i}
  }

  lemma BitInPositions(w: Word, i: nat)
    requires i < 32
    ensures i in Positions(w) <==> Bit(w, i)
  {
  }

  lemma FlippedPositions(w: Word, i: nat)
    requires i < 32
    ensures Positions(w ^ Mask(i)) == Toggled(Positions(w), i)
  {
    var w', s := w ^ Mask(i), Toggled(Positions(w), i);
    FlipThis(w, i);
    BitInPositions(w, i);
    forall j: nat | j < 32 ensures j in s <==> Bit(w', j) {
      BitInPositions(w, j);
      if j != i {
        FlipOthers(w, i, j);
      }
    }
    StandsForOne(s, w');
  }

  lemma SetPositions(w: Word, i: nat)
    requires i < 32
    ensures Positions(w | Mask(i)) == Positions(w) + {i}
  {
    var w', s := w | Mask(i), Positions(w) + {i};
    SetThis(w, i);
    BitInPositions(w, i);
    forall j: nat | j < 32 ensures j in s <==> Bit(w', j) {
      BitInPositions(w, j);
      if j != i {
        SetOthers(w, i, j);
      }
    }
    StandsForOne(s, w');
  }

  lemma ClearPositions(w: Word, i: nat)
    requires i < 32
    ensures Positions(w & !Mask(i)) == Positions(w) - {i}
  {
    var w', s := w & !Mask(i), Positions(w) - {i};
    ClearThis(w, i);
    BitInPositions(w, i);
    forall j: nat | j < 32 ensures j in s <==> Bit(w', j) {
      BitInPositions(w, j);
      if j != i {
        ClearOthers(w, i, j);
      }
    }
    StandsForOne(s, w');
  }

  lemma NoPositions()
    ensures Positions(0) == {}
  {
    ZeroIffNoBit(0);
    StandsForOne({}, 0);
  }

  lemma EmptyIsZero(w: Word)
    ensures Positions(w) == {} ==> w == 0
  {
    ZeroIffNoBit(w);
    if w != 0 {
      var i: nat :| i < 32 && Bit(w, i);
      BitInPositions(w, i);
    }
  }

  lemma ZeroContents(s: seq<Word>)
    requires forall k | 0 <= k < |s| :: s[k] == 0
    ensures forall k | 0 <= k < |s| :: Contents(s)[k] == {}
  {
    forall k | 0 <= k < |s| ensures Contents(s)[k] == {} {
      ContentsAt(s, k);
      NoPositions();
    }
  }

  lemma SetWord(s: seq<Word>, k: nat, i: nat)
    requires k < |s| && i < 32
    ensures Contents(s[k := s[k] | Mask(i)]) == Contents(s)[k := Contents(s)[k] + {i}]
  {
    SetPositions(s[k], i);
    ContentsAt(s, k);
    ContentsUpdated(s, k, s[k] | Mask(i));
  }

  /** words[k] |= 1 << i */
  method SetIn(words: array<Word>, k: nat, i: nat)
    requires k < words.Length && i < 32
    modifies words
    ensures Contents(words[..]) == old(Contents(words[..])[k := Contents(words[..])[k] + {i}])
  {
    SetWord(words[..], k, i);
    words[k] := words[k] | Mask(i);
    assert words[..] == old(words[..])[k := words[k]];
  }

  lemma ClearWord(s: seq<Word>, k: nat, i: nat)
    requires k < |s| && i < 32
    ensures Contents(s[k := s[k] & !Mask(i)]) == Contents(s)[k := Contents(s)[k] - {i}]
  {
    ClearPositions(s[k], i);
    ContentsAt(s, k);
    ContentsUpdated(s, k, s[k] & !Mask(i));
  }

  /** words[k] &= ~(1 << i) */
  method ClearIn(words: array<Word>, k: nat, i: nat)
    requires k < words.Length && i < 32
    modifies words
    ensures Contents(words[..]) == old(Contents(words[..])[k := Contents(words[..])[k] - {i}])
  {
    ClearWord(words[..], k, i);
    words[k] := words[k] & !Mask(i);
    assert words[..] == old(words[..])[k := words[k]];
  }

  lemma FlipWord(s: seq<Word>, k: nat, i: nat)
    requires k < |s| && i < 32
    ensures Contents(s[k := s[k] ^ Mask(i)]) == Contents(s)[k := Toggled(Contents(s)[k], i)]
  {
    FlippedPositions(s[k], i);
    ContentsAt(s, k);
    ContentsUpdated(s, k, s[k] ^ Mask(i));
  }

  /** words[k] ^= 1 << i */
  method FlipIn(words: array<Word>, k: nat, i: nat)
    requires k < words.Length && i < 32
    modifies words
    ensures Contents(words[..]) == old(Contents(words[..])[k := Toggled(Contents(words[..])[k], i)])
  {
    FlipWord(words[..], k, i);
    words[k] := words[k] ^ Mask(i);
    assert words[..] == old(words[..])[k := words[k]];
  }

  /** words[k] & (1 << i) */
  method TestIn(words: array<Word>, k: nat, i: nat) returns (b: bool)
    requires k < words.Length && i < 32
    ensures b <==> i in Contents(words[..])[k]
  {
    b := words[k] & Mask(i) != 0;
    BitInPositions(words[k], i);
    ContentsAt(words[..], k);
  }

  /** words[k] == 0 */
  method IsZero(words: array<Word>, k: nat) returns (b: bool)
    requires k < words.Length
    ensures b <==> Contents(words[..])[k] == {}
  {
    b := words[k] == 0;
    ZeroIffNoBit(words[k]);
    ContentsAt(words[..], k);
    if b {
      StandsForOne({}, words[k]);
    } else {
      var i: nat :| i < 32 && Bit(words[k], i);
      BitInPositions(words[k], i);
    }
  }

  ghost predicate IsLeast(s: set<nat>, i: nat) {
    i in s && forall j | j in s :: i <= j
  }

  ghost predicate IsGreatest(s: set<nat>, i: nat) {
    i in s && forall j | j in s :: j <= i
  }

  /** The bsf instruction on words[k]. */
  method LowestIn(words: array<Word>, k: nat) returns (i: nat)
    requires k < words.Length && Contents(words[..])[k] != {}
    ensures i < 32 && IsLeast(Contents(words[..])[k], i)
  {
    i := 0;
    ContentsAt(words[..], k);
    var b := TestIn(words, k, 0);
    while !b
      invariant i < 32 && (b <==> i in Contents(words[..])[k])
      invariant forall j | j in Contents(words[..])[k] :: i <= j < 32
      decreases 32 - i, !b
    {
      ghost var m :| m in Contents(words[..])[k];
      i := i + 1;
      b := TestIn(words, k, i);
    }
  }

  /** The bsr instruction on words[k]. */
  method HighestIn(words: array<Word>, k: nat) returns (i: nat)
    requires k < words.Length && Contents(words[..])[k] != {}
    ensures i < 32 && IsGreatest(Contents(words[..])[k], i)
  {
    i := 31;
    ContentsAt(words[..], k);
    var b := TestIn(words, k, 31);
    while !b
      invariant i < 32 && (b <==> i in Contents(words[..])[k])
      invariant forall j | j in Contents(words[..])[k] :: j <= i
      decreases i, !b
    {
      ghost var m :| m in Contents(words[..])[k];
      i := i - 1;
      b := TestIn(words, k, i);
    }
  }
}

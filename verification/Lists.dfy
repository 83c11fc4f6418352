/** Facts about lists without repeats. */
module Lists {
  ghost predicate NoRepeats<T>(s: seq<T>) {
    forall i, j | 0 <= i < j < |s| :: s[i] != s[j]
  }

  // s without its first x.
  function Without<T(==)>(s: seq<T>, x: T): (r: seq<T>) {
    if s == [] then []
    else if s[0] == x then s[1..]
    else [s[0]] + Without(s[1..], x)
  }

  function Occurs<T(==)>(s: seq<T>, x: T): nat { if x in s then 1 else 0 }

  // Unlinking the element at k.
  lemma {:induction false} WithoutAt<T>(s: seq<T>, k: nat)
    requires NoRepeats(s) && k < |s|
    ensures Without(s, s[k]) == s[..k] + s[k + 1..]
  {
    if k > 0 {
      assert s[1..][k - 1] == s[k];
      WithoutAt(s[1..], k - 1);
      assert s[..k] + s[k + 1..] == [s[0]] + (s[1..][..k - 1] + s[1..][k..]);
    }
  }

  lemma NoRepeatsWithout<T>(s: seq<T>, k: nat)
    requires NoRepeats(s) && k < |s|
    ensures NoRepeats(s[..k] + s[k + 1..])
  {
    var r := s[..k] + s[k + 1..];
    forall i, j | 0 <= i < j < |r| ensures r[i] != r[j] {
      assert r[i] == if i < k then s[i] else s[i + 1];
      assert r[j] == if j < k then s[j] else s[j + 1];
    }
  }

  lemma MemberWithout<T>(s: seq<T>, k: nat, p: T)
    requires NoRepeats(s) && k < |s|
    ensures p in s[..k] + s[k + 1..] <==> p in s && p != s[k]
  {
    if p in s && p != s[k] {
      var i :| 0 <= i < |s| && s[i] == p;
      assert (s[..k] + s[k + 1..])[if i < k then i else i - 1] == p;
    }
  }

  lemma MemberOfRest<T>(s: seq<T>, p: T)
    requires NoRepeats(s) && s != []
    ensures p in s[1..] <==> p in s && p != s[0]
  {
  }

  lemma NoRepeatsAppend<T>(s: seq<T>, x: T)
    requires NoRepeats(s) && x !in s
    ensures NoRepeats(s + [x]) && forall y :: y in s + [x] <==> y in s || y == x
  {
  }

  lemma NoRepeatsPrepend<T>(x: T, s: seq<T>)
    requires NoRepeats(s) && x !in s
    ensures NoRepeats([x] + s) && forall y :: y in [x] + s <==> y in s || y == x
  {
  }

  lemma {:induction false} WithoutAbsent<T>(s: seq<T>, x: T)
    requires x !in s
    ensures Without(s, x) == s
  {
    if s != [] {
      WithoutAbsent(s[1..], x);
    }
  }

  lemma WithoutKeeps<T>(s: seq<T>, x: T)
    requires NoRepeats(s)
    ensures NoRepeats(Without(s, x)) && |Without(s, x)| == |s| - Occurs(s, x)
    ensures forall y :: y in Without(s, x) <==> y in s && y != x
  {
    if x in s {
      var k :| 0 <= k < |s| && s[k] == x;
      WithoutAt(s, k);
      NoRepeatsWithout(s, k);
      forall y ensures y in Without(s, x) <==> y in s && y != x {
        MemberWithout(s, k, y);
      }
    } else {
      WithoutAbsent(s, x);
    }
  }

  // x stands somewhere before y.
  ghost predicate Ahead<T>(s: seq<T>, x: T, y: T) {
    exists i, j :: 0 <= i < j < |s| && s[i] == x && s[j] == y
  }

  lemma {:induction false} MemberAfterWithout<T>(s: seq<T>, z: T, x: T)
    ensures x in Without(s, z) ==> x in s
    ensures x != z && x in s ==> x in Without(s, z)
  {
    if s != [] {
      MemberAfterWithout(s[1..], z, x);
    }
  }

  lemma {:induction false} WithoutPrefix<T>(s: seq<T>, r: seq<T>, z: T)
    requires s <= r
    ensures Without(s, z) <= Without(r, z)
  {
    if s != [] {
      WithoutPrefix(s[1..], r[1..], z);
    }
  }

  lemma AheadInLonger<T>(s: seq<T>, r: seq<T>, x: T, y: T)
    requires s <= r && Ahead(s, x, y)
    ensures Ahead(r, x, y)
  {
    var i, j :| 0 <= i < j < |s| && s[i] == x && s[j] == y;
    assert r[i] == x && r[j] == y;
  }

  // What a longer list has more comes after what it had.
  lemma AheadOfNew<T>(s: seq<T>, r: seq<T>, x: T, y: T)
    requires s <= r && x in s && y in r && y !in s
    ensures Ahead(r, x, y)
  {
    var i :| 0 <= i < |s| && s[i] == x;
    var j :| 0 <= j < |r| && r[j] == y;
    assert r[i] == x && forall k | 0 <= k < |s| :: r[k] == s[k];
  }

  lemma AheadByRest<T>(s: seq<T>, x: T, y: T)
    requires s != [] && (Ahead(s[1..], x, y) || (s[0] == x && y in s[1..]))
    ensures Ahead(s, x, y)
  {
    if Ahead(s[1..], x, y) {
      var i, j :| 0 <= i < j < |s[1..]| && s[1..][i] == x && s[1..][j] == y;
      assert s[i + 1] == x && s[j + 1] == y;
    } else {
      var j :| 0 <= j < |s[1..]| && s[1..][j] == y;
      assert s[0] == x && s[j + 1] == y;
    }
  }

  lemma RestOfAhead<T>(s: seq<T>, x: T, y: T)
    requires Ahead(s, x, y)
    ensures s != [] && (Ahead(s[1..], x, y) || (s[0] == x && y in s[1..]))
  {
    var i, j :| 0 <= i < j < |s| && s[i] == x && s[j] == y;
    assert s[1..][j - 1] == y;
    if i > 0 { assert s[1..][i - 1] == x; }
  }

  lemma {:induction false} AheadWithout<T>(s: seq<T>, z: T, x: T, y: T)
    requires Ahead(s, x, y) && x != z && y != z
    ensures Ahead(Without(s, z), x, y)
  {
    RestOfAhead(s, x, y);
    if s[0] != z {
      var r := Without(s, z);
      assert r[1..] == Without(s[1..], z);
      MemberAfterWithout(s[1..], z, y);
      if Ahead(s[1..], x, y) {
        AheadWithout(s[1..], z, x, y);
      }
      AheadByRest(r, x, y);
    }
  }

  // The first of a list without repeats has nothing ahead of it.
  lemma NothingAheadOfFirst<T>(s: seq<T>, x: T, y: T)
    requires NoRepeats(s)
    ensures Ahead(s, x, y) ==> y in s && s[0] != y
  {
  }
}

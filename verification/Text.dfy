/** Strings as the gateway uses them: suffix trimming, substring search, and the byte order
    that directory listings and sorted file lists follow. */
module Text {

  datatype Option<+T> = None | Some(value: T)

  lemma TakeNext<T>(s: seq<T>, i: nat)
    requires i < |s|
    ensures s[..i + 1] == s[..i] + [s[i]]
  {
  }

  /** Where the i-th part begins when parts follow one another. */
  function Offset<T>(parts: seq<seq<T>>, i: nat): nat
    requires i <= |parts|
  {
    if i == 0 then 0 else Offset(parts, i - 1) + |parts[i - 1]|
  }

  lemma {:induction false} SameOffset<T, U>(a: seq<seq<T>>, b: seq<seq<U>>, i: nat)
    requires i <= |a| && i <= |b| && forall j | 0 <= j < i :: |a[j]| == |b[j]|
    ensures Offset(a, i) == Offset(b, i)
  {
    if i > 0 { SameOffset(a, b, i - 1); }
  }

  /** `all` is the parts one after another. */
  ghost predicate Joins<T>(all: seq<T>, parts: seq<seq<T>>) {
    && |all| == Offset(parts, |parts|)
    && forall i: nat, k: nat | i < |parts| && k < |parts[i]| ::
         Offset(parts, i) + k < |all| && all[Offset(parts, i) + k] == parts[i][k]
  }

  lemma JoinsAt<T>(all: seq<T>, parts: seq<seq<T>>, i: nat, k: nat)
    requires Joins(all, parts) && i < |parts| && k < |parts[i]|
    ensures Offset(parts, i) + k < |all| && all[Offset(parts, i) + k] == parts[i][k]
  {
  }

  lemma JoinsMore<T>(all: seq<T>, parts: seq<seq<T>>, last: seq<T>)
    requires Joins(all, parts)
    ensures Joins(all + last, parts + [last])
  {
    var more := parts + [last];
    forall i: nat | i <= |parts| ensures Offset(more, i) == Offset(parts, i) { SameOffset(more, parts, i); }
  }

  predicate HasSuffix(s: string, p: string) {
    |p| <= |s| && s[|s| - |p|..] == p
  }

  function TrimSuffix(s: string, p: string): (r: string)
    ensures if HasSuffix(s, p) then r + p == s else r == s
  {
    if HasSuffix(s, p) then s[..|s| - |p|] else s
  }

  predicate OccursAt(s: string, p: string, i: int) {
    0 <= i <= |s| - |p| && s[i..i + |p|] == p
  }

  predicate Contains(s: string, p: string) {
    exists i | 0 <= i <= |s| :: OccursAt(s, p, i)
  }

  lemma TrimAppended(s: string, p: string)
    ensures HasSuffix(s + p, p) && TrimSuffix(s + p, p) == s
  {
    assert (s + p)[|s|..] == p;
    assert (s + p)[..|s|] == s;
  }

  /** What the words mean, by concatenation alone. */
  lemma SuffixIs(s: string, p: string)
    ensures HasSuffix(s, p) <==> exists a :: s == a + p
  {
    if HasSuffix(s, p) { assert s == s[..|s| - |p|] + p; }
    if a :| s == a + p { assert s[|s| - |p|..] == p; }
  }

  lemma ContainsIs(s: string, p: string)
    ensures Contains(s, p) <==> exists a, b :: s == a + p + b
  {
    if i :| 0 <= i <= |s| && OccursAt(s, p, i) { assert s == s[..i] + p + s[i + |p|..]; }
    if a, b :| s == a + p + b {
      assert s[|a|..|a| + |p|] == p;
      assert OccursAt(s, p, |a|);
    }
  }

  /** Appending to a string keeps every occurrence. */
  lemma ContainsGrows(s: string, t: string, p: string)
    requires Contains(s, p)
    ensures Contains(s + t, p)
  {
    var i :| 0 <= i <= |s| && OccursAt(s, p, i);
    assert (s + t)[i..i + |p|] == s[i..i + |p|];
    assert OccursAt(s + t, p, i);
  }

  /** `p` and `ext` both start with their only dot, so no occurrence of `p` straddles
      the point where the extension `ext` was appended. */
  lemma ExtensionDoesNotStraddle(s: string, ext: string, p: string)
    requires p != [] && ext != [] && ext[0] == p[0]
    requires forall i | 1 <= i < |p| :: p[i] != p[0]
    ensures Contains(s + ext, p) <==> Contains(s, p) || Contains(ext, p)
  {
    if Contains(s, p) { ContainsGrows(s, ext, p); }
    if i :| 0 <= i <= |ext| && OccursAt(ext, p, i) { OccursLater(s, ext, p, i); }
    if i :| 0 <= i <= |s + ext| && OccursAt(s + ext, p, i) { OccursBeforeOrAfter(s, ext, p, i); }
  }

  lemma OccursLater(s: string, t: string, p: string, i: nat)
    requires OccursAt(t, p, i)
    ensures Contains(s + t, p)
  {
    assert (s + t)[|s| + i..|s| + i + |p|] == t[i..i + |p|];
    assert OccursAt(s + t, p, |s| + i);
  }

  lemma OccursBeforeOrAfter(s: string, ext: string, p: string, i: nat)
    requires p != [] && ext != [] && ext[0] == p[0]
    requires forall j | 1 <= j < |p| :: p[j] != p[0]
    requires OccursAt(s + ext, p, i)
    ensures Contains(s, p) || Contains(ext, p)
  {
    var all := s + ext;
    assert forall k | i <= k < i + |p| :: all[k] == all[i..i + |p|][k - i];
    assert forall k | i < k < i + |p| :: all[k] != p[0];
    assert all[|s|] == p[0];
    if i + |p| <= |s| {
      assert s[i..i + |p|] == all[i..i + |p|];
      assert OccursAt(s, p, i);
    } else {
      assert ext[i - |s|..i - |s| + |p|] == all[i..i + |p|];
      assert OccursAt(ext, p, i - |s|);
    }
  }

  /** Nothing without the separator lies across it. */
  lemma ContainsApart(a: string, sep: char, b: string, p: string)
    requires p != [] && sep !in p
    ensures Contains(a + [sep] + b, p) <==> Contains(a, p) || Contains(b, p)
  {
    var s := a + [sep] + b;
    if Contains(a, p) { ContainsGrows(a, [sep] + b, p); assert s == a + ([sep] + b); }
    if i :| 0 <= i <= |b| && OccursAt(b, p, i) { OccursLater(a + [sep], b, p, i); }
    if i :| 0 <= i <= |s| && OccursAt(s, p, i) { OccursOnOneSide(a, sep, b, p, i); }
  }

  lemma OccursOnOneSide(a: string, sep: char, b: string, p: string, i: nat)
    requires p != [] && sep !in p && OccursAt(a + [sep] + b, p, i)
    ensures OccursAt(a, p, i) || OccursAt(b, p, i - |a| - 1)
  {
    var s := a + [sep] + b;
    assert s[|a|] == sep;
    assert forall j | 0 <= j < |p| :: s[i + j] == p[j] && p[j] in p;
    assert forall j | i <= j < i + |p| :: s[j] == p[j - i] && s[j] != sep;
    if i + |p| <= |a| {
      assert a[i..i + |p|] == s[i..i + |p|];
    } else {
      assert |a| < i;
      assert b[i - |a| - 1..i - |a| - 1 + |p|] == s[i..i + |p|];
    }
  }

  /** Byte order on strings: a proper prefix comes first. */
  predicate Less(a: string, b: string) {
    b != [] && (a == [] || a[0] < b[0] || (a[0] == b[0] && Less(a[1..], b[1..])))
  }

  /** The first `i` characters agree, and then `a` ends or has the smaller one. */
  predicate DepartsAt(a: string, b: string, i: nat) {
    && i <= |a| && i < |b| && a[..i] == b[..i]
    && (i < |a| ==> a[i] < b[i])
  }

  lemma SameHead(a: string, b: string, i: nat)
    requires DepartsAt(a, b, i)
    ensures i > 0 ==> a[0] == b[0]
  {
    if i > 0 { assert a[..i][0] == b[..i][0]; }
  }

  lemma {:induction false} LessIs(a: string, b: string)
    ensures Less(a, b) <==> exists i: nat :: DepartsAt(a, b, i)
  {
    if a == [] || b == [] {
      if b != [] { assert DepartsAt(a, b, 0); }
    } else if a[0] == b[0] {
      LessIs(a[1..], b[1..]);
      assert a == [a[0]] + a[1..] && b == [b[0]] + b[1..];
      if i: nat :| DepartsAt(a[1..], b[1..], i) {
        assert a[..i + 1] == [a[0]] + a[1..][..i] && b[..i + 1] == [b[0]] + b[1..][..i];
        assert DepartsAt(a, b, i + 1);
      }
      if i: nat :| DepartsAt(a, b, i) {
        assert i > 0 && a[1..][..i - 1] == a[..i][1..] && b[1..][..i - 1] == b[..i][1..];
        assert DepartsAt(a[1..], b[1..], i - 1);
      }
    } else {
      if a[0] < b[0] { assert DepartsAt(a, b, 0); }
      if i: nat :| DepartsAt(a, b, i) { SameHead(a, b, i); }
    }
  }

  predicate AtMost(a: string, b: string) {
    a == b || Less(a, b)
  }

  lemma {:induction false} LessIrreflexive(a: string)
    ensures !Less(a, a)
  {
    if a != [] { LessIrreflexive(a[1..]); }
  }

  lemma {:induction false} LessTransitive(a: string, b: string, c: string)
    requires Less(a, b) && Less(b, c)
    ensures Less(a, c)
  {
    if a != [] && a[0] == b[0] == c[0] { LessTransitive(a[1..], b[1..], c[1..]); }
  }

  lemma {:induction false} LessTotal(a: string, b: string)
    ensures Less(a, b) || a == b || Less(b, a)
  {
    if a != [] && b != [] && a[0] == b[0] {
      LessTotal(a[1..], b[1..]);
      assert a == [a[0]] + a[1..] && b == [b[0]] + b[1..];
    }
  }

  /** A common prefix does not affect the order. */
  lemma {:induction false} LessAfterPrefix(p: string, a: string, b: string)
    ensures Less(p + a, p + b) <==> Less(a, b)
  {
    if p == [] {
      assert p + a == a && p + b == b;
    } else {
      assert (p + a)[1..] == p[1..] + a && (p + b)[1..] == p[1..] + b;
      LessAfterPrefix(p[1..], a, b);
    }
  }

  predicate StrictlySorted(s: seq<string>) {
    forall i, j | 0 <= i < j < |s| :: Less(s[i], s[j])
  }

  ghost predicate IsLeast(s: set<string>, m: string) {
    m in s && forall x | x in s :: AtMost(m, x)
  }

  lemma {:induction false} LeastExists(s: set<string>)
    requires s != {}
    ensures exists m :: IsLeast(s, m)
  {
    var x :| x in s;
    if s == {x} {
      assert IsLeast(s, x);
    } else {
      LeastExists(s - {x});
      var rest :| IsLeast(s - {x}, rest);
      LessTotal(rest, x);
      var m := if Less(x, rest) then x else rest;
      forall y | y in s ensures AtMost(m, y) {
        if y != x {
          assert AtMost(rest, y);
          if m == x && y != rest { LessTransitive(x, rest, y); }
        }
      }
      assert IsLeast(s, m);
    }
  }

  ghost function Least(s: set<string>): (m: string)
    requires s != {}
    ensures IsLeast(s, m)
  {
    LeastExists(s);
    var m :| IsLeast(s, m);
    m
  }

  /** The one listing of a set of names in strictly ascending order. */
  ghost function Ascending(s: set<string>): (r: seq<string>)
    ensures StrictlySorted(r) && |r| == |s|
    ensures forall x :: x in r <==> x in s
  {
    if s == {} then [] else
      var m := Least(s);
      var rest := Ascending(s - {m});
      assert forall j | 0 <= j < |rest| :: rest[j] in s - {m} && AtMost(m, rest[j]);
      [m] + rest
  }

  lemma FirstIsLeast(r: seq<string>, s: set<string>)
    requires StrictlySorted(r) && r != [] && (forall x :: x in r <==> x in s)
    ensures s != {} && r[0] == Least(s)
  {
    assert r[0] in s;
    var m := Least(s);
    LessIrreflexive(m);
    var i :| 0 <= i < |r| && r[i] == m;
    if i > 0 && r[0] != m { LessTransitive(m, r[0], m); }
  }

  lemma TailWithout(r: seq<string>, s: set<string>)
    requires StrictlySorted(r) && r != [] && (forall x :: x in r <==> x in s)
    ensures StrictlySorted(r[1..]) && forall x :: x in r[1..] <==> x in s - {r[0]}
  {
    LessIrreflexive(r[0]);
    assert forall j | 1 <= j < |r| :: Less(r[0], r[j]);
    assert r == [r[0]] + r[1..];
    assert forall x | x in r[1..] :: x in r && x != r[0];
  }

  lemma {:induction false} AscendingUnique(r: seq<string>, s: set<string>)
    requires StrictlySorted(r) && forall x :: x in r <==> x in s
    ensures r == Ascending(s)
  {
    if r != [] {
      FirstIsLeast(r, s);
      TailWithout(r, s);
      AscendingUnique(r[1..], s - {r[0]});
      LeastComesFirst(s);
      assert r == [r[0]] + r[1..];
    } else {
      assert s == {};
    }
  }

  lemma LeastComesFirst(s: set<string>)
    requires s != {}
    ensures Ascending(s) == [Least(s)] + Ascending(s - {Least(s)})
  {
  }
}

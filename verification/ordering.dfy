/**
  The display order of `renderParticipants`: a copy of the loaded profiles,
  sorted by the case-folded display name (the name, or the login when the name
  is absent or empty), stably, as `Array.prototype.sort` does.
*/
module Ordering {
  import opened GitHub
  import Text

  /** The name when it is present and non-empty, otherwise the login. */
  function DisplayName(p: Profile): (r: string)
    ensures p.name.None? || p.name.value == "" ==> r == p.login
    ensures p.name.Some? && p.name.value != "" ==> r == p.name.value
  {
    match p.name
    case Some(n) => if n != "" then n else p.login
    case None => p.login
  }

  /** The sort key: the display name, lower-cased. */
  function Key(p: Profile): string {
    Text.Lower(DisplayName(p))
  }

  /** Non-decreasing by key, between every pair of positions. */
  predicate Sorted(s: seq<Profile>) {
    forall i, j :: 0 <= i < j < |s| ==> Text.LexLe(Key(s[i]), Key(s[j]))
  }

  /** The profiles of `s` whose key is `k`, in their order in `s`. */
  function WithKey(s: seq<Profile>, k: string): seq<Profile> {
    if |s| == 0 then []
    else (if Key(s[0]) == k then [s[0]] else []) + WithKey(s[1..], k)
  }

  /** `r` keeps the relative order of every group of equal-key profiles of `s`. */
  ghost predicate StableFor(r: seq<Profile>, s: seq<Profile>) {
    forall k :: WithKey(r, k) == WithKey(s, k)
  }

  /** Places `p` before the first profile whose key is not below its own. */
  function Insert(p: Profile, s: seq<Profile>): (r: seq<Profile>)
    ensures multiset(r) == multiset(s) + multiset{p}
    ensures |r| == |s| + 1
  {
    if |s| == 0 then [p]
    else if Text.LexLe(Key(p), Key(s[0])) then [p] + s
    else
      assert s == [s[0]] + s[1..];
      [s[0]] + Insert(p, s[1..])
  }

  /** The sorted copy: insertion of each profile, from the last to the first. */
  function SortByDisplayName(s: seq<Profile>): (r: seq<Profile>)
    ensures multiset(r) == multiset(s)
    ensures |r| == |s|
  {
    if |s| == 0 then []
    else
      assert s == [s[0]] + s[1..];
      Insert(s[0], SortByDisplayName(s[1..]))
  }

  lemma WithKeyCons(x: Profile, s: seq<Profile>, k: string)
    ensures WithKey([x] + s, k) == (if Key(x) == k then [x] else []) + WithKey(s, k)
  {
    assert ([x] + s)[1..] == s;
  }

  /** Inserting `p` puts it at the head of its key group and leaves the other groups alone. */
  lemma {:induction false} InsertGroups(p: Profile, s: seq<Profile>, k: string)
    ensures WithKey(Insert(p, s), k) == (if Key(p) == k then [p] else []) + WithKey(s, k)
    decreases |s|
  {
    if |s| == 0 {
      WithKeyCons(p, [], k);
    } else if Text.LexLe(Key(p), Key(s[0])) {
      WithKeyCons(p, s, k);
    } else {
      assert s == [s[0]] + s[1..];
      Text.LexLeReflexive(Key(p));
      assert Key(s[0]) != Key(p);
      InsertGroups(p, s[1..], k);
      WithKeyCons(s[0], Insert(p, s[1..]), k);
      WithKeyCons(s[0], s[1..], k);
    }
  }

  /** Inserting into a sorted sequence keeps it sorted. */
  lemma {:induction false} InsertSorted(p: Profile, s: seq<Profile>)
    requires Sorted(s)
    ensures Sorted(Insert(p, s))
    decreases |s|
  {
    if |s| == 0 {
    } else if Text.LexLe(Key(p), Key(s[0])) {
      var r := [p] + s;
      forall i, j | 0 <= i < j < |r|
        ensures Text.LexLe(Key(r[i]), Key(r[j]))
      {
        if i == 0 {
          if j > 1 {
            Text.LexLeTransitive(Key(p), Key(s[0]), Key(s[j - 1]));
          }
        }
      }
    } else {
      InsertSorted(p, s[1..]);
      Text.LexLeTotal(Key(p), Key(s[0]));
      var t := Insert(p, s[1..]);
      var r := [s[0]] + t;
      forall i, j | 0 <= i < j < |r|
        ensures Text.LexLe(Key(r[i]), Key(r[j]))
      {
        if i == 0 {
          assert r[j] == t[j - 1];
          assert t[j - 1] in multiset(t);
          assert t[j - 1] == p || t[j - 1] in multiset(s[1..]);
          if t[j - 1] != p {
            var m :| 0 <= m < |s[1..]| && s[1..][m] == t[j - 1];
            assert s[1..][m] == s[m + 1];
          }
        }
      }
    }
  }

  /**
    The sorted copy is ordered by key, is a permutation of its input, and keeps
    equal-key profiles in their input order.
  */
  lemma {:induction false} SortCorrect(s: seq<Profile>)
    ensures Sorted(SortByDisplayName(s))
    ensures multiset(SortByDisplayName(s)) == multiset(s)
    ensures StableFor(SortByDisplayName(s), s)
    decreases |s|
  {
    if |s| > 0 {
      SortCorrect(s[1..]);
      InsertSorted(s[0], SortByDisplayName(s[1..]));
      forall k
        ensures WithKey(SortByDisplayName(s), k) == WithKey(s, k)
      {
        InsertGroups(s[0], SortByDisplayName(s[1..]), k);
        WithKeyCons(s[0], s[1..], k);
        assert s == [s[0]] + s[1..];
      }
    }
  }

  lemma {:induction false} WithKeyNonEmpty(s: seq<Profile>, k: string)
    requires |WithKey(s, k)| > 0
    ensures exists m :: 0 <= m < |s| && Key(s[m]) == k
    decreases |s|
  {
    if Key(s[0]) != k {
      WithKeyNonEmpty(s[1..], k);
      var m :| 0 <= m < |s[1..]| && Key(s[1..][m]) == k;
      assert Key(s[m + 1]) == k;
    }
  }

  lemma HeadKeyLeast(u: seq<Profile>, k: string)
    requires Sorted(u) && |u| > 0 && |WithKey(u, k)| > 0
    ensures Text.LexLe(Key(u[0]), k)
  {
    WithKeyNonEmpty(u, k);
    var m :| 0 <= m < |u| && Key(u[m]) == k;
    if m == 0 {
      Text.LexLeReflexive(k);
    }
  }

  lemma SameGroupsSameHead(t: seq<Profile>, u: seq<Profile>)
    requires Sorted(t) && Sorted(u) && |t| > 0 && |u| > 0
    requires forall k :: WithKey(t, k) == WithKey(u, k)
    ensures t[0] == u[0]
  {
    var a, b := Key(t[0]), Key(u[0]);
    assert WithKey(t, a)[0] == t[0];
    assert WithKey(u, b)[0] == u[0];
    HeadKeyLeast(u, a);
    HeadKeyLeast(t, b);
    Text.LexLeAntisymmetric(a, b);
  }

  lemma SameGroupsSameLength(t: seq<Profile>, u: seq<Profile>)
    requires forall k :: WithKey(t, k) == WithKey(u, k)
    ensures |t| == 0 <==> |u| == 0
  {
    if |u| > 0 {
      assert WithKey(u, Key(u[0])) != [];
    }
    if |t| > 0 {
      assert WithKey(t, Key(t[0])) != [];
    }
  }

  lemma SameGroupTail(t: seq<Profile>, u: seq<Profile>, k: string)
    requires |t| > 0 && |u| > 0 && t[0] == u[0]
    requires WithKey(t, k) == WithKey(u, k)
    ensures WithKey(t[1..], k) == WithKey(u[1..], k)
  {
    WithKeyCons(t[0], t[1..], k);
    WithKeyCons(u[0], u[1..], k);
    assert t == [t[0]] + t[1..];
    assert u == [u[0]] + u[1..];
    var h := if Key(t[0]) == k then [t[0]] else [];
    assert WithKey(t[1..], k) == WithKey(t, k)[|h|..];
    assert WithKey(u[1..], k) == WithKey(u, k)[|h|..];
  }

  /** Two sorted sequences with the same key groups are equal. */
  lemma {:induction false} SortedGroupsDetermine(t: seq<Profile>, u: seq<Profile>)
    requires Sorted(t) && Sorted(u)
    requires forall k :: WithKey(t, k) == WithKey(u, k)
    ensures t == u
    decreases |t|
  {
    SameGroupsSameLength(t, u);
    if |t| > 0 {
      SameGroupsSameHead(t, u);
      forall k
        ensures WithKey(t[1..], k) == WithKey(u[1..], k)
      {
        SameGroupTail(t, u, k);
      }
      SortedGroupsDetermine(t[1..], u[1..]);
      assert t == [t[0]] + t[1..];
      assert u == [u[0]] + u[1..];
    }
  }

  /**
    The display order is the only ordering of the profiles that is sorted by key
    and stable: any such sequence is the one `SortByDisplayName` returns.
  */
  lemma SortUnique(s: seq<Profile>, t: seq<Profile>)
    requires Sorted(t) && StableFor(t, s)
    ensures t == SortByDisplayName(s)
  {
    SortCorrect(s);
    SortedGroupsDetermine(t, SortByDisplayName(s));
  }
}

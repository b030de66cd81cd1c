/** Operations on Python lists used by a record's phone list and by the
    key order of a dict: first-match search, filtering out a value, and the
    absence of duplicates. */
module Lists {
  import opened Results

  predicate NoDuplicates<T(==)>(s: seq<T>)
  {
    forall i, j :: 0 <= i < j < |s| ==> s[i] != s[j]
  }

  /** The first position holding `x`, as a left-to-right scan that stops at
      the first match finds it. */
  function FirstIndex<T(==)>(s: seq<T>, x: T): (r: Option<nat>)
    ensures r.None? <==> x !in s
    ensures r.Some? ==> r.value < |s| && s[r.value] == x && x !in s[..r.value]
  {
    if s == [] then None
    else if s[0] == x then Some(0)
    else
      match FirstIndex(s[1..], x)
      case None => None
      case Some(i) =>
        assert s[..i + 1] == [s[0]] + s[1..][..i];
        Some(i + 1)
  }

  /** A match with no match before it is the first match. */
  lemma {:induction false} FirstIndexIsFirstMatch<T>(s: seq<T>, x: T, i: nat)
    requires i < |s| && s[i] == x && x !in s[..i]
    ensures FirstIndex(s, x) == Some(i)
  {
    if i > 0 {
      assert s[..i][0] == s[0];
      assert s[1..][..i - 1] == s[..i][1..];
      FirstIndexIsFirstMatch(s[1..], x, i - 1);
    }
  }

  /** `[p for p in s if p != x]`: no `x` is left, and nothing new appears. */
  function RemoveAll<T(==)>(s: seq<T>, x: T): (r: seq<T>)
    ensures x !in r
    ensures forall i :: 0 <= i < |r| ==> r[i] in s
  {
    if s == [] then []
    else (if s[0] == x then [] else [s[0]]) + RemoveAll(s[1..], x)
  }

  /** Filtering out `x` drops every copy of `x` and keeps every other value
      exactly as often as it occurred. */
  lemma {:induction false} RemoveAllCounts<T>(s: seq<T>, x: T)
    ensures multiset(RemoveAll(s, x)) == multiset(s)[x := 0]
  {
    if s != [] {
      RemoveAllCounts(s[1..], x);
      HeadTail(s);
    }
  }

  /** Filtering out `x` keeps exactly the other values. */
  lemma {:induction false} RemoveAllMembers<T>(s: seq<T>, x: T, y: T)
    ensures y in RemoveAll(s, x) <==> y in s && y != x
  {
    if s != [] {
      RemoveAllMembers(s[1..], x, y);
      HeadTail(s);
    }
  }

  /** Filtering keeps the order of what remains: it works piece by piece. */
  lemma {:induction false} RemoveAllAppend<T>(a: seq<T>, b: seq<T>, x: T)
    ensures RemoveAll(a + b, x) == RemoveAll(a, x) + RemoveAll(b, x)
  {
    if a == [] {
      assert a + b == b;
    } else {
      var ab := a + b;
      assert ab != [] && ab[0] == a[0] && ab[1..] == a[1..] + b;
      var head := if a[0] == x then [] else [a[0]];
      calc {
        RemoveAll(ab, x);
        head + RemoveAll(a[1..] + b, x);
        { RemoveAllAppend(a[1..], b, x); }
        head + (RemoveAll(a[1..], x) + RemoveAll(b, x));
        (head + RemoveAll(a[1..], x)) + RemoveAll(b, x);
        RemoveAll(a, x) + RemoveAll(b, x);
      }
    }
  }

  /** Filtering out a value that is absent changes nothing. */
  lemma {:induction false} RemoveAllAbsent<T>(s: seq<T>, x: T)
    requires x !in s
    ensures RemoveAll(s, x) == s
  {
    if s != [] {
      RemoveAllAbsent(s[1..], x);
      HeadTail(s);
    }
  }

  /** In a list without duplicates, filtering out a value removes exactly the
      one position holding it and keeps the rest in order. */
  lemma RemoveAllOne<T>(s: seq<T>, i: nat)
    requires NoDuplicates(s) && i < |s|
    ensures RemoveAll(s, s[i]) == s[..i] + s[i + 1..]
  {
    OnlyAt(s, i);
    SplitAt(s, i);
    RemoveAllSplit(s[..i], s[i], s[i + 1..]);
  }

  lemma SplitAt<T>(s: seq<T>, i: nat)
    requires i < |s|
    ensures s == s[..i] + [s[i]] + s[i + 1..]
  {
  }

  lemma TakeOneMore<T>(s: seq<T>, i: nat)
    requires i < |s|
    ensures s[..i + 1] == s[..i] + [s[i]] && s[..i + 1][..i] == s[..i]
  {
  }

  lemma HeadTail<T>(s: seq<T>)
    requires s != []
    ensures s == [s[0]] + s[1..]
  {
  }

  lemma SplitLast<T>(s: seq<T>)
    requires s != []
    ensures s == s[..|s| - 1] + [s[|s| - 1]]
  {
  }

  lemma AppendParts<T>(s: seq<T>, x: T)
    ensures var t := s + [x]; t[..|t| - 1] == s && t[|t| - 1] == x
    ensures s != [] ==> (s + [x])[1..] == s[1..] + [x]
    ensures s == [] ==> (s + [x])[1..] == []
  {
  }

  /** In a list without duplicates, the value at position i occurs nowhere
      else. */
  lemma OnlyAt<T>(s: seq<T>, i: nat)
    requires NoDuplicates(s) && i < |s|
    ensures s[i] !in s[..i] && s[i] !in s[i + 1..]
  {
    var pre, post := s[..i], s[i + 1..];
    forall j | 0 <= j < |pre| ensures pre[j] != s[i] { assert pre[j] == s[j]; }
    forall j | 0 <= j < |post| ensures post[j] != s[i] { assert post[j] == s[i + 1 + j]; }
  }

  lemma RemoveAllSplit<T>(pre: seq<T>, x: T, post: seq<T>)
    requires x !in pre && x !in post
    ensures RemoveAll(pre + [x] + post, x) == pre + post
  {
    assert RemoveAll([x], x) == [] by {
      assert [x][0] == x && [x][1..] == [];
    }
    calc {
      RemoveAll(pre + [x] + post, x);
      { assert pre + [x] + post == pre + ([x] + post); }
      RemoveAll(pre + ([x] + post), x);
      { RemoveAllAppend(pre, [x] + post, x); }
      RemoveAll(pre, x) + RemoveAll([x] + post, x);
      { RemoveAllAppend([x], post, x); }
      RemoveAll(pre, x) + (RemoveAll([x], x) + RemoveAll(post, x));
      { RemoveAllAbsent(pre, x); RemoveAllAbsent(post, x); }
      pre + ([] + post);
      { assert [] + post == post; }
      pre + post;
    }
  }

  /** Filtering keeps a duplicate-free list duplicate-free. */
  lemma {:induction false} RemoveAllNoDuplicates<T>(s: seq<T>, x: T)
    requires NoDuplicates(s)
    ensures NoDuplicates(RemoveAll(s, x))
  {
    if s != [] {
      RemoveAllNoDuplicates(s[1..], x);
      var t := RemoveAll(s[1..], x);
      assert s[0] !in s[1..];
      assert s[0] !in t;
      if s[0] != x {
        forall i, j | 0 <= i < j < |[s[0]] + t| ensures ([s[0]] + t)[i] != ([s[0]] + t)[j] {
          if i > 0 {
            assert ([s[0]] + t)[i] == t[i - 1];
          }
        }
      }
    }
  }

  /** Replacing the only occurrence of `a` by a different `b`: afterwards `b`
      is found and `a` is not. */
  lemma ReplaceOnly<T>(s: seq<T>, a: T, b: T)
    requires NoDuplicates(s) && a in s && a != b
    ensures var t := s[FirstIndex(s, a).value := b]; b in t && a !in t
  {
    var i := FirstIndex(s, a).value;
    var t := s[i := b];
    assert t[i] == b;
    forall j | 0 <= j < |t| ensures t[j] != a {
      if j != i {
        assert s[j] != s[i];
      }
    }
  }

  /** Replacing the first `a` by a `b` that is already present leaves two
      copies of `b`: replacement does not keep a list duplicate-free. */
  lemma ReplaceCanDuplicate<T>(a: T, b: T)
    requires a != b
    ensures var s := [a, b]; s[FirstIndex(s, a).value := b] == [b, b]
    ensures NoDuplicates([a, b]) && !NoDuplicates([b, b])
  {
    assert FirstIndex([a, b], a) == Some(0);
    assert [b, b][0] == [b, b][1];
  }
}

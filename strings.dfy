/** String operations of the PHP runtime that the model relies on:
    str_replace with one needle, strpos used as a substring test,
    array_unique (first occurrence wins) and basename. */
module Strings {

  /** p occurs in s starting at index i. */
  predicate OccursAt(s: string, p: string, i: int)
  {
    0 <= i && i + |p| <= |s| && s[i..i + |p|] == p
  }

  /** Reference definition of "p is a substring of s". */
  ghost predicate IsSubstring(p: string, s: string)
  {
    exists i :: OccursAt(s, p, i)
  }

  lemma SubstringOfTail(s: string, p: string)
    requires |s| >= |p| > 0 && s[..|p|] != p
    ensures IsSubstring(p, s) <==> IsSubstring(p, s[1..])
  {
    if IsSubstring(p, s) {
      var i :| OccursAt(s, p, i);
      assert i != 0;
      assert s[1..][i - 1..i - 1 + |p|] == s[i..i + |p|];
      assert OccursAt(s[1..], p, i - 1);
    }
    if IsSubstring(p, s[1..]) {
      var i :| OccursAt(s[1..], p, i);
      assert s[1..][i..i + |p|] == s[i + 1..i + 1 + |p|];
      assert OccursAt(s, p, i + 1);
    }
  }

  /** strpos(s, p) !== false: scans s from the left for p. An empty needle
      is found at index 0 (PHP 8 semantics). */
  function Contains(s: string, p: string): (b: bool)
    ensures b <==> IsSubstring(p, s)
    decreases |s|
  {
    if |s| < |p| then false
    else if s[..|p|] == p then assert OccursAt(s, p, 0); true
    else SubstringOfTail(s, p); Contains(s[1..], p)
  }

  /** A witnessed occurrence is found by the scan. */
  lemma ContainsAt(s: string, p: string, i: int)
    requires OccursAt(s, p, i)
    ensures Contains(s, p)
  {
  }

  /** str_replace(f, t, s) for a single needle: scans s from the left and
      replaces every non-overlapping occurrence of f by t; an empty needle
      leaves s unchanged. A replacement no longer than the needle never
      lengthens the text. */
  function Replace(s: string, f: string, t: string): (r: string)
    ensures |t| <= |f| ==> |r| <= |s|
    decreases |s|
  {
    if f == [] || |s| < |f| then s
    else if s[..|f|] == f then t + Replace(s[|f|..], f, t)
    else [s[0]] + Replace(s[1..], f, t)
  }

  /** Replacing a needle that does not occur changes nothing. */
  lemma {:induction false} ReplaceAbsent(s: string, f: string, t: string)
    ensures !IsSubstring(f, s) ==> Replace(s, f, t) == s
    decreases |s|
  {
    if f != [] && |s| >= |f| && !IsSubstring(f, s) {
      assert !OccursAt(s, f, 0);
      SubstringOfTail(s, f);
      ReplaceAbsent(s[1..], f, t);
      assert [s[0]] + s[1..] == s;
    }
  }

  /** A text holding the needle once, with no other occurrence before or
      after it, has exactly that occurrence replaced. */
  lemma ReplaceOnce(a: string, f: string, b: string, t: string)
    requires f != [] && f[0] !in f[1..]
    requires !IsSubstring(f, a) && !IsSubstring(f, b)
    ensures Replace(a + f + b, f, t) == a + t + b
  {
    ReplaceAbsent(b, f, t);
    NoStraddle(a, f + b, f);
    assert a + f + b == a + (f + b);
    ReplaceSkipsPrefix(a, f + b, f, t);
    ReplaceAtStart(b, f, t);
    assert a + (t + b) == a + t + b;
  }

  /** The pieces joined with sep between each two neighbours. */
  function Join(pieces: seq<string>, sep: string): string
  {
    if pieces == [] then []
    else if |pieces| == 1 then pieces[0]
    else pieces[0] + sep + Join(pieces[1..], sep)
  }

  /** Every occurrence is replaced, however many there are: a text made of
      pieces free of the needle, with the needle between each two of them,
      becomes the same pieces with the replacement between them. */
  lemma {:induction false} ReplaceEvery(pieces: seq<string>, f: string, t: string)
    requires f != [] && f[0] !in f[1..]
    requires forall k :: 0 <= k < |pieces| ==> !IsSubstring(f, pieces[k])
    ensures Replace(Join(pieces, f), f, t) == Join(pieces, t)
    decreases |pieces|
  {
    if |pieces| == 0 {
    } else if |pieces| == 1 {
      ReplaceAbsent(pieces[0], f, t);
    } else {
      var p, rest := pieces[0], pieces[1..];
      var q := f + Join(rest, f);
      assert Join(pieces, f) == p + q;
      NoStraddle(p, q, f);
      ReplaceSkipsPrefix(p, q, f, t);
      ReplaceAtStart(Join(rest, f), f, t);
      ReplaceEvery(rest, f, t);
      assert Join(pieces, t) == p + (t + Join(rest, t));
    }
  }

  /** Where no occurrence starts, the first character is copied. */
  lemma ReplaceCopiesFirst(s: string, f: string, t: string)
    requires f != [] && s != [] && !OccursAt(s, f, 0)
    ensures Replace(s, f, t) == [s[0]] + Replace(s[1..], f, t)
  {
    if |s| < |f| {
      assert Replace(s[1..], f, t) == s[1..];
      assert [s[0]] + s[1..] == s;
    }
  }

  /** A prefix u in which no occurrence of f starts is copied unchanged. */
  lemma {:induction false} ReplaceSkipsPrefix(u: string, q: string, f: string, t: string)
    requires f != []
    requires forall i :: 0 <= i < |u| ==> !OccursAt(u + q, f, i)
    ensures Replace(u + q, f, t) == u + Replace(q, f, t)
    decreases |u|
  {
    var s := u + q;
    if u == [] {
      assert s == q;
    } else {
      var u', s' := u[1..], u[1..] + q;
      assert s[1..] == s' && s[0] == u[0];
      assert Replace(s, f, t) == [u[0]] + Replace(s', f, t) by {
        assert !OccursAt(s, f, 0);
        ReplaceCopiesFirst(s, f, t);
      }
      assert Replace(s', f, t) == u' + Replace(q, f, t) by {
        forall i | 0 <= i < |u'|
          ensures !OccursAt(s', f, i)
        {
          assert !OccursAt(s, f, i + 1);
          OccursInTail(s, f, i);
        }
        ReplaceSkipsPrefix(u', q, f, t);
      }
      assert [u[0]] + (u' + Replace(q, f, t)) == u + Replace(q, f, t) by {
        assert u == [u[0]] + u';
      }
    }
  }

  /** An occurrence in the tail is an occurrence one further on. */
  lemma OccursInTail(s: string, f: string, i: int)
    requires |s| > 0 && 0 <= i
    ensures OccursAt(s[1..], f, i) <==> OccursAt(s, f, i + 1)
  {
    if i + |f| <= |s| - 1 {
      assert s[1..][i..i + |f|] == s[i + 1..i + 1 + |f|];
    }
  }

  /** A string that starts with the needle has it replaced there. */
  lemma ReplaceAtStart(q: string, f: string, t: string)
    requires f != []
    ensures Replace(f + q, f, t) == t + Replace(q, f, t)
  {
    assert (f + q)[..|f|] == f;
    assert (f + q)[|f|..] == q;
  }

  /** f + q where the first character of f does not reappear inside f and
      q does not start an occurrence before its first character:
      no occurrence of f straddles the end of u. */
  lemma NoStraddle(u: string, q: string, f: string)
    requires |f| > 0 && |q| > 0 && q[0] == f[0] && f[0] !in f[1..]
    requires !IsSubstring(f, u)
    ensures forall i :: 0 <= i < |u| ==> !OccursAt(u + q, f, i)
  {
    forall i | 0 <= i < |u|
      ensures !OccursAt(u + q, f, i)
    {
      if i + |f| <= |u| {
        assert (u + q)[i..i + |f|] == u[i..i + |f|];
        assert !OccursAt(u, f, i);
      } else if i + |f| <= |u + q| {
        var k := |u| - i;
        assert (u + q)[i..i + |f|][k] == q[0] == f[0];
        assert f[k] != f[0] by {
          assert f[k] == f[1..][k - 1];
        }
      }
    }
  }

  /** s has no repeated element. */
  predicate NoDups<T(==)>(s: seq<T>)
  {
    forall i, j :: 0 <= i < j < |s| ==> s[i] != s[j]
  }

  /** Index of the first occurrence of x in s. */
  function FirstIndex<T(==)>(s: seq<T>, x: T): (k: nat)
    requires x in s
    ensures k < |s| && s[k] == x && x !in s[..k]
  {
    if s[0] == x then 0 else
      assert s == [s[0]] + s[1..];
      var k := 1 + FirstIndex(s[1..], x);
      assert s[..k] == [s[0]] + s[1..][..k - 1];
      k
  }

  /** array_unique followed by values(): keeps the first occurrence of each
      element, in order. */
  function Dedup(s: seq<string>): (r: seq<string>)
    ensures NoDups(r)
    ensures forall x :: x in r <==> x in s
  {
    if s == [] then []
    else
      var d := Dedup(s[..|s| - 1]);
      assert s == s[..|s| - 1] + [s[|s| - 1]];
      if s[|s| - 1] in d then d else d + [s[|s| - 1]]
  }

  lemma FirstIndexOfPrefix<T>(a: seq<T>, b: seq<T>, x: T)
    requires x in a
    ensures FirstIndex(a + b, x) == FirstIndex(a, x)
  {
    var k, m := FirstIndex(a + b, x), FirstIndex(a, x);
    forall j | 0 <= j < k
      ensures (a + b)[j] != x
    {
      assert (a + b)[..k][j] == (a + b)[j];
    }
    forall j | 0 <= j < m
      ensures a[j] != x
    {
      assert a[..m][j] == a[j];
    }
    assert (a + b)[m] == x;
  }

  /** Dedup keeps first-occurrence order: the elements it returns appear in
      the order of their first occurrences in s. */
  lemma {:induction false} DedupKeepsFirstOccurrenceOrder(s: seq<string>)
    ensures forall i, j :: 0 <= i < j < |Dedup(s)| ==>
      FirstIndex(s, Dedup(s)[i]) < FirstIndex(s, Dedup(s)[j])
  {
    if s != [] {
      var init, last := s[..|s| - 1], s[|s| - 1];
      assert s == init + [last];
      var d := Dedup(init);
      DedupKeepsFirstOccurrenceOrder(init);
      forall x | x in d
        ensures FirstIndex(s, x) == FirstIndex(init, x)
      {
        FirstIndexOfPrefix(init, [last], x);
      }
      if last !in d {
        assert last !in init;
        forall j | 0 <= j < |s| - 1
          ensures s[j] != last
        {
          assert s[j] == init[j];
        }
        assert FirstIndex(s, last) == |s| - 1;
        var r := Dedup(s);
        assert r == d + [last];
        forall i, j | 0 <= i < j < |r|
          ensures FirstIndex(s, r[i]) < FirstIndex(s, r[j])
        {
          if j < |d| {
            assert r[i] == d[i] && r[j] == d[j];
          } else {
            assert r[i] == d[i];
          }
        }
      }
    }
  }

  /** Strips trailing '/' characters, as basename does first. */
  function TrimTrailingSlashes(s: string): (r: string)
    ensures r == [] || r[|r| - 1] != '/'
  {
    if s != [] && s[|s| - 1] == '/' then TrimTrailingSlashes(s[..|s| - 1]) else s
  }

  /** The characters after the last '/'. */
  function LastComponent(s: string): (r: string)
    ensures '/' !in r
    ensures |r| <= |s| && r == s[|s| - |r|..]
  {
    if s == [] || s[|s| - 1] == '/' then []
    else
      var r := LastComponent(s[..|s| - 1]) + [s[|s| - 1]];
      assert s[..|s| - 1][|s| - 1 - (|r| - 1)..] + [s[|s| - 1]] == s[|s| - |r|..];
      r
  }

  /** PHP basename() on a '/'-separated path. */
  function Basename(path: string): (r: string)
    ensures '/' !in r
  {
    LastComponent(TrimTrailingSlashes(path))
  }

  lemma {:induction false} LastComponentAfterSlash(dir: string, name: string)
    requires '/' !in name
    ensures LastComponent(dir + "/" + name) == name
    decreases |name|
  {
    var s := dir + "/" + name;
    if name == [] {
      assert s[|s| - 1] == '/';
    } else {
      var init, last := name[..|name| - 1], name[|name| - 1];
      assert name == init + [last];
      assert last != '/' by {
        assert last in name;
      }
      assert s == (dir + "/" + init) + [last];
      assert s[..|s| - 1] == dir + "/" + init;
      assert s[|s| - 1] == last;
      LastComponentAfterSlash(dir, init);
    }
  }

  /** The basename of an entry path is the entry's name. */
  lemma BasenameOfEntry(dir: string, name: string)
    requires name != [] && '/' !in name
    ensures Basename(dir + "/" + name) == name
  {
    var s := dir + "/" + name;
    assert s[|s| - 1] == name[|name| - 1];
    assert name[|name| - 1] in name;
    assert TrimTrailingSlashes(s) == s;
    LastComponentAfterSlash(dir, name);
  }
}

/** The optional value the JavaScript code expresses with `null` / `undefined`. */
module Wrappers {

  datatype Option<+T> = None | Some(value: T)
}

/**
 * Sequence vocabulary shared by the two history lists and by the map markers:
 * JavaScript's `slice(0, n)`, `filter` by key, `some` by key, first-occurrence
 * de-duplication, and the facts about them that the callers rely on.
 * A "key" is a projection such as `item => item.ip`, passed as a named function.
 */
module Lists {

  function Min(a: int, b: int): int { if a < b then a else b }

  function Max(a: int, b: int): int { if a < b then b else a }

  /** `s.slice(0, n)` for n >= 0: the first min(n, |s|) elements. */
  function Take<T>(s: seq<T>, n: nat): (r: seq<T>)
    ensures r <= s
    ensures |r| == Min(n, |s|)
  {
    if n < |s| then s[..n] else s
  }

  /** `s.slice(0, end)` for any integer end; a negative end counts back from the end of s. */
  function SliceTo<T>(s: seq<T>, end: int): (r: seq<T>)
    ensures r <= s
    ensures 0 <= end ==> |r| == Min(end, |s|)
    ensures end < 0 ==> |r| == Max(|s| + end, 0)
  {
    if 0 <= end then Take(s, end) else Take(s, Max(|s| + end, 0))
  }

  /** `s.some(x => key(x) === k)`. */
  function HasKey<T, K(==)>(s: seq<T>, key: T -> K, k: K): (b: bool)
    ensures b <==> exists i :: 0 <= i < |s| && key(s[i]) == k
  {
    if s == [] then false
    else key(s[0]) == k || HasKey(s[1..], key, k)
  }

  /** `s.filter(x => !ks.includes(key(x)))`. */
  function Without<T, K(==)>(s: seq<T>, key: T -> K, ks: seq<K>): (r: seq<T>)
    ensures |r| <= |s|
    ensures forall x :: x in r ==> x in s && key(x) !in ks
    ensures forall i :: 0 <= i < |s| && key(s[i]) !in ks ==> s[i] in r
  {
    if s == [] then []
    else if key(s[0]) in ks then Without(s[1..], key, ks)
    else [s[0]] + Without(s[1..], key, ks)
  }

  /** a is obtained from b by deleting elements: a keeps b's order. */
  ghost predicate Subseq<T>(a: seq<T>, b: seq<T>)
    decreases |b|
  {
    a == [] || (b != [] && ((a[0] == b[0] && Subseq(a[1..], b[1..])) || Subseq(a, b[1..])))
  }

  /** No two elements share a key. */
  ghost predicate UniqueKeys<T, K>(s: seq<T>, key: T -> K) {
    forall i, j :: 0 <= i < j < |s| ==> key(s[i]) != key(s[j])
  }

  /** No element before position i has the key of s[i]. */
  ghost predicate FirstAt<T, K>(s: seq<T>, key: T -> K, i: int)
    requires 0 <= i < |s|
  {
    forall j :: 0 <= j < i ==> key(s[j]) != key(s[i])
  }

  /**
   * The loop "push x unless an already pushed element has key(x)", run over s:
   * the first element with each key, in the order of s.
   */
  function FirstByKey<T, K(==)>(s: seq<T>, key: T -> K): (d: seq<T>)
    ensures |d| <= |s|
    ensures forall x :: x in d ==> x in s
  {
    if s == [] then []
    else
      var d := FirstByKey(s[..|s| - 1], key);
      if HasKey(d, key, key(s[|s| - 1])) then d else d + [s[|s| - 1]]
  }

  lemma ConcatAssoc<T>(a: seq<T>, b: seq<T>, c: seq<T>)
    ensures (a + b) + c == a + (b + c)
  {
  }

  /** One more element: it is kept exactly when no kept element has its key. */
  /** A sequence is its part before i, its i-th element and its part after i. */
  lemma SplitAt<T>(s: seq<T>, i: nat)
    requires i < |s|
    ensures s == s[..i] + [s[i]] + s[i + 1..]
  {
    assert s[..i] + [s[i]] == s[..i + 1];
  }

  lemma FirstByKeySnoc<T, K>(s: seq<T>, x: T, key: T -> K)
    ensures FirstByKey(s + [x], key) ==
      if HasKey(FirstByKey(s, key), key, key(x)) then FirstByKey(s, key) else FirstByKey(s, key) + [x]
  {
    assert (s + [x])[..|s|] == s;
  }

  lemma SubseqCons<T>(h: T, a: seq<T>, b: seq<T>)
    requires Subseq(a, b)
    ensures Subseq(a, [h] + b) && Subseq([h] + a, [h] + b)
  {
    assert ([h] + b)[1..] == b;
    assert ([h] + a)[1..] == a;
  }

  /** Filtering keeps exactly the elements whose key is not listed, with their order and multiplicity. */
  lemma {:induction false} WithoutExactly<T, K>(s: seq<T>, key: T -> K, ks: seq<K>)
    ensures Subseq(Without(s, key, ks), s)
    ensures forall x :: multiset(Without(s, key, ks))[x] == if key(x) in ks then 0 else multiset(s)[x]
  {
    if s != [] {
      WithoutExactly(s[1..], key, ks);
      var t := Without(s[1..], key, ks);
      assert s == [s[0]] + s[1..];
      if key(s[0]) in ks {
        SubseqCons(s[0], t, s[1..]);
      } else {
        SubseqCons(s[0], t, s[1..]);
      }
    }
  }

  /** Filtering by keys no element carries changes nothing. */
  lemma {:induction false} WithoutAbsent<T, K>(s: seq<T>, key: T -> K, ks: seq<K>)
    requires forall i :: 0 <= i < |s| ==> key(s[i]) !in ks
    ensures Without(s, key, ks) == s
  {
    if s != [] {
      WithoutAbsent(s[1..], key, ks);
      assert s == [s[0]] + s[1..];
    }
  }

  /** Filtering twice by the same keys is filtering once. */
  lemma WithoutIdempotent<T, K>(s: seq<T>, key: T -> K, ks: seq<K>)
    ensures Without(Without(s, key, ks), key, ks) == Without(s, key, ks)
  {
    var r := Without(s, key, ks);
    forall i | 0 <= i < |r| ensures key(r[i]) !in ks {
      assert r[i] in r;
    }
    WithoutAbsent(r, key, ks);
  }

  lemma UniqueCons<T, K>(h: T, t: seq<T>, key: T -> K)
    requires UniqueKeys(t, key)
    requires forall x :: x in t ==> key(x) != key(h)
    ensures UniqueKeys([h] + t, key)
  {
    var s := [h] + t;
    forall i, j | 0 <= i < j < |s| ensures key(s[i]) != key(s[j]) {
      assert s[j] == t[j - 1];
      if i > 0 {
        assert s[i] == t[i - 1];
      } else {
        assert t[j - 1] in t;
      }
    }
  }

  /** Filtering keeps keys unique. */
  lemma {:induction false} WithoutUnique<T, K>(s: seq<T>, key: T -> K, ks: seq<K>)
    requires UniqueKeys(s, key)
    ensures UniqueKeys(Without(s, key, ks), key)
  {
    if s != [] {
      var t := s[1..];
      assert UniqueKeys(t, key) by {
        forall i, j | 0 <= i < j < |t| ensures key(t[i]) != key(t[j]) {
          assert t[i] == s[i + 1] && t[j] == s[j + 1];
        }
      }
      WithoutUnique(t, key, ks);
      if key(s[0]) !in ks {
        forall x | x in Without(t, key, ks) ensures key(x) != key(s[0]) {
          var j :| 0 <= j < |t| && t[j] == x;
          assert s[j + 1] == x;
        }
        UniqueCons(s[0], Without(t, key, ks), key);
      }
    }
  }

  /** A prefix of a list with unique keys has unique keys. */
  lemma TakeUnique<T, K>(s: seq<T>, n: nat, key: T -> K)
    requires UniqueKeys(s, key)
    ensures UniqueKeys(Take(s, n), key)
  {
    var r := Take(s, n);
    forall i, j | 0 <= i < j < |r| ensures key(r[i]) != key(r[j]) {
      assert r[i] == s[i] && r[j] == s[j];
    }
  }

  lemma SubseqSnoc<T>(a: seq<T>, b: seq<T>, x: T)
    requires Subseq(a, b)
    ensures Subseq(a, b + [x]) && Subseq(a + [x], b + [x])
    decreases |b|
  {
    if a == [] {
      assert Subseq([] + [x], [] + [x]) by {
        assert ([x])[1..] == [] && ([x] + [])[1..] == [];
      }
      if b == [] {
      } else {
        assert (b + [x])[1..] == b[1..] + [x];
        SubseqSnoc(a, b[1..], x);
        assert Subseq(a + [x], b + [x]) by {
          assert a + [x] == [x];
          assert Subseq([x], b[1..] + [x]);
        }
      }
    } else {
      assert b != [];
      assert (b + [x])[0] == b[0] && (b + [x])[1..] == b[1..] + [x];
      assert (a + [x])[0] == a[0] && (a + [x])[1..] == a[1..] + [x];
      if a[0] == b[0] && Subseq(a[1..], b[1..]) {
        SubseqSnoc(a[1..], b[1..], x);
      } else {
        SubseqSnoc(a, b[1..], x);
      }
    }
  }

  /** A prefix of a subsequence of b is a subsequence of b. */
  lemma {:induction false} SubseqPrefix<T>(a: seq<T>, c: seq<T>, b: seq<T>)
    requires a <= c && Subseq(c, b)
    ensures Subseq(a, b)
    decreases |b|
  {
    if a != [] {
      assert c != [] && b != [] && a[0] == c[0];
      if c[0] == b[0] && Subseq(c[1..], b[1..]) {
        assert a[1..] <= c[1..];
        SubseqPrefix(a[1..], c[1..], b[1..]);
      } else {
        SubseqPrefix(a, c, b[1..]);
      }
    }
  }

  /**
   * First-occurrence de-duplication keeps order, leaves no two elements with one key,
   * and keeps every element that is the first with its key (so the earliest one wins).
   */
  lemma {:induction false} FirstByKeyCorrect<T, K>(s: seq<T>, key: T -> K)
    ensures Subseq(FirstByKey(s, key), s)
    ensures UniqueKeys(FirstByKey(s, key), key)
    ensures forall i :: 0 <= i < |s| && FirstAt(s, key, i) ==> s[i] in FirstByKey(s, key)
  {
    if s != [] {
      var p, c := s[..|s| - 1], s[|s| - 1];
      assert s == p + [c];
      FirstByKeyCorrect(p, key);
      var d := FirstByKey(p, key);
      if HasKey(d, key, key(c)) {
        SubseqSnoc(d, p, c);
        var j :| 0 <= j < |d| && key(d[j]) == key(c);
        assert d[j] in p;
        var m :| 0 <= m < |p| && p[m] == d[j];
        assert s[m] == p[m] && s[|p|] == c;
        assert !FirstAt(s, key, |p|);
        forall i | 0 <= i < |s| && FirstAt(s, key, i) ensures s[i] in d {
          if i < |p| {
            assert s[i] == p[i];
            assert FirstAt(p, key, i) by {
              forall j | 0 <= j < i ensures key(p[j]) != key(p[i]) {
                assert s[j] == p[j];
              }
            }
          }
        }
      } else {
        SubseqSnoc(d, p, c);
        var e := d + [c];
        forall i, j | 0 <= i < j < |e| ensures key(e[i]) != key(e[j]) {
          if j == |d| {
            assert e[i] == d[i];
          } else {
            assert e[i] == d[i] && e[j] == d[j];
          }
        }
        forall i | 0 <= i < |s| && FirstAt(s, key, i) ensures s[i] in e {
          if i < |p| {
            assert s[i] == p[i];
            assert FirstAt(p, key, i) by {
              forall j | 0 <= j < i ensures key(p[j]) != key(p[i]) {
                assert s[j] == p[j];
              }
            }
          }
        }
      }
    }
  }

  /** De-duplication never drops the first element. */
  lemma {:induction false} FirstByKeyHead<T, K>(s: seq<T>, key: T -> K)
    requires s != []
    ensures FirstByKey(s, key) != [] && FirstByKey(s, key)[0] == s[0]
  {
    if |s| > 1 {
      var p := s[..|s| - 1];
      FirstByKeyHead(p, key);
      assert p[0] == s[0];
    } else {
      assert s[..0] == [];
    }
  }
}

/**
 * JavaScript string helpers on `seq<char>`: `split` on one character, `join` with a
 * separator string, and `trim`.
 */
module Text {

  /** `s.split(c)`: the maximal runs between occurrences of c ("" splits into [""]). */
  function Split(s: string, c: char): (r: seq<string>)
    ensures |r| >= 1
    ensures forall p :: p in r ==> c !in p
    decreases |s|
  {
    if s == [] then [""]
    else
      var rest := Split(s[1..], c);
      if s[0] == c then [""] + rest
      else [[s[0]] + rest[0]] + rest[1..]
  }

  /** `parts.join(sep)`. */
  function Join(parts: seq<string>, sep: string): string
  {
    if |parts| == 0 then ""
    else if |parts| == 1 then parts[0]
    else parts[0] + sep + Join(parts[1..], sep)
  }

  /** Joining the pieces of a split restores the string. */
  lemma {:induction false} JoinSplit(s: string, c: char)
    ensures Join(Split(s, c), [c]) == s
  {
    if s != [] {
      var rest := Split(s[1..], c);
      JoinSplit(s[1..], c);
      if s[0] == c {
        assert ([""] + rest)[1..] == rest;
      } else {
        var r := [[s[0]] + rest[0]] + rest[1..];
        if |rest| == 1 {
          assert r == [[s[0]] + rest[0]];
        } else {
          assert r[1..] == rest[1..];
          assert Join(rest, [c]) == rest[0] + [c] + Join(rest[1..], [c]);
        }
      }
    }
  }

  lemma {:induction false} SplitNoSeparator(s: string, c: char)
    requires c !in s
    ensures Split(s, c) == [s]
  {
    if s != [] {
      SplitNoSeparator(s[1..], c);
      assert [s[0]] + s[1..] == s;
    }
  }

  lemma {:induction false} SplitAfter(x: string, c: char, y: string)
    requires c !in x
    ensures Split(x + [c] + y, c) == [x] + Split(y, c)
  {
    var s := x + [c] + y;
    if x == [] {
      assert s[0] == c && s[1..] == y;
    } else {
      assert s[0] == x[0] && s[1..] == x[1..] + [c] + y;
      SplitAfter(x[1..], c, y);
      assert [x[0]] + x[1..] == x;
    }
  }

  /** Splitting a join of separator-free pieces gives the pieces back. */
  lemma {:induction false} SplitJoin(parts: seq<string>, c: char)
    requires |parts| >= 1
    requires forall p :: p in parts ==> c !in p
    ensures Split(Join(parts, [c]), c) == parts
  {
    if |parts| == 1 {
      SplitNoSeparator(parts[0], c);
    } else {
      assert parts[0] in parts;
      forall p | p in parts[1..] ensures c !in p {
        assert p in parts;
      }
      SplitJoin(parts[1..], c);
      SplitAfter(parts[0], c, Join(parts[1..], [c]));
      assert [parts[0]] + parts[1..] == parts;
    }
  }

  /** Joining a concatenation puts one separator between the two joins. */
  lemma {:induction false} JoinAppend(a: seq<string>, b: seq<string>, sep: string)
    requires |a| >= 1 && |b| >= 1
    ensures Join(a + b, sep) == Join(a, sep) + sep + Join(b, sep)
  {
    var ab := a + b;
    if |a| == 1 {
      assert ab[0] == a[0] && ab[1..] == b;
    } else {
      assert ab[0] == a[0] && ab[1..] == a[1..] + b;
      JoinAppend(a[1..], b, sep);
    }
  }

  /** Every character of a join comes from a piece or from the separator. */
  lemma {:induction false} JoinChars(parts: seq<string>, sep: string, ch: char)
    requires ch in Join(parts, sep)
    ensures ch in sep || exists p :: p in parts && ch in p
  {
    if |parts| > 1 {
      var rest := Join(parts[1..], sep);
      if ch !in parts[0] && ch !in sep {
        assert ch in rest;
        JoinChars(parts[1..], sep, ch);
        var p :| p in parts[1..] && ch in p;
        assert p in parts;
      } else if ch in parts[0] {
        assert parts[0] in parts;
      }
    } else if |parts| == 1 {
      assert parts[0] in parts;
    }
  }

  /** WhiteSpace and LineTerminator code points as String.prototype.trim strips them. */
  predicate IsJsSpace(ch: char) {
    ch == '\t' || ch == '\n' || ch == '\U{B}' || ch == '\U{C}' || ch == '\r' || ch == ' '
    || ch == '\U{A0}' || ch == '\U{1680}' || ('\U{2000}' <= ch <= '\U{200A}')
    || ch == '\U{2028}' || ch == '\U{2029}' || ch == '\U{202F}' || ch == '\U{205F}'
    || ch == '\U{3000}' || ch == '\U{FEFF}'
  }

  ghost predicate AllSpace(s: string) {
    forall k :: 0 <= k < |s| ==> IsJsSpace(s[k])
  }

  lemma AllSpaceConcat(a: string, b: string)
    requires AllSpace(a) && AllSpace(b)
    ensures AllSpace(a + b)
  {
    forall k | 0 <= k < |a + b| ensures IsJsSpace((a + b)[k]) {
      if k < |a| { assert (a + b)[k] == a[k]; } else { assert (a + b)[k] == b[k - |a|]; }
    }
  }

  /** `s` without its leading white space. */
  function TrimStart(s: string): string {
    if s != [] && IsJsSpace(s[0]) then TrimStart(s[1..]) else s
  }

  /** `s` without its trailing white space. */
  function TrimEnd(s: string): string {
    if s != [] && IsJsSpace(s[|s| - 1]) then TrimEnd(s[..|s| - 1]) else s
  }

  /** TrimStart keeps a suffix, drops only white space, and stops at a non-space. */
  lemma {:induction false} TrimStartMeans(s: string)
    ensures var r := TrimStart(s);
      |r| <= |s| && r == s[|s| - |r|..] && AllSpace(s[..|s| - |r|]) && (r == [] || !IsJsSpace(r[0]))
  {
    if s != [] && IsJsSpace(s[0]) {
      TrimStartMeans(s[1..]);
      var r := TrimStart(s[1..]);
      assert s[1..][..|s| - 1 - |r|] == s[1..|s| - |r|];
      assert s[..|s| - |r|] == [s[0]] + s[1..|s| - |r|];
    }
  }

  /** TrimEnd keeps a prefix, drops only white space, and stops at a non-space. */
  lemma {:induction false} TrimEndMeans(s: string)
    ensures var r := TrimEnd(s);
      r <= s && AllSpace(s[|r|..]) && (r == [] || !IsJsSpace(r[|r| - 1]))
  {
    if s != [] && IsJsSpace(s[|s| - 1]) {
      var init := s[..|s| - 1];
      TrimEndMeans(init);
      var r := TrimEnd(init);
      assert |r| <= |init| && s == init + [s[|s| - 1]];
      assert s[|r|..] == init[|r|..] + [s[|s| - 1]];
    }
  }

  /**
   * `s.trim()`: s with its leading and trailing white space removed.
   */
  function Trim(s: string): string {
    TrimEnd(TrimStart(s))
  }

  /**
   * The trimmed string is s[i..j] with only white space outside it and none at either
   * end of it; it is empty exactly when s is all white space.
   */
  lemma TrimMeans(s: string)
    ensures var r := Trim(s);
      exists i, j | 0 <= i <= j <= |s| :: r == s[i..j] && AllSpace(s[..i]) && AllSpace(s[j..])
    ensures var r := Trim(s);
      r == [] || (!IsJsSpace(r[0]) && !IsJsSpace(r[|r| - 1]))
    ensures Trim(s) == [] <==> AllSpace(s)
  {
    var t := TrimStart(s);
    var r := TrimEnd(t);
    TrimStartMeans(s);
    TrimEndMeans(t);
    var i := |s| - |t|;
    assert r == s[i..i + |r|];
    assert s[i + |r|..] == t[|r|..];
    if r == [] {
      assert t[|r|..] == t && s == s[..i] + t;
      AllSpaceConcat(s[..i], t);
    } else {
      assert r[0] == t[0] == s[i];
      assert !IsJsSpace(s[i]);
    }
  }
}

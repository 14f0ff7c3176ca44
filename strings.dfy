/**
 * The behaviour of the Python `str` methods and `re` substitutions that the pipeline
 * relies on, stated over `seq<char>`: `find`, `rfind`, `split(sep)`, `sep.join`,
 * `replace(p, "")`, `strip`, `split()`, `re.sub(r"\s+", " ", s)` and `str(n)`.
 */
module Strings {

  /** Python's whitespace: `str.isspace`, which is also what `\s` matches in a `str` pattern. */
  predicate IsSpace(c: char)
  {
    var n := c as int;
    (9 <= n <= 13) || (28 <= n <= 32) || n == 0x85 || n == 0xA0 || n == 0x1680
    || (0x2000 <= n <= 0x200A) || n == 0x2028 || n == 0x2029 || n == 0x202F
    || n == 0x205F || n == 0x3000
  }

  /** The digits matched by `\d` (ASCII only in this model). */
  predicate IsDigit(c: char)
  {
    '0' <= c <= '9'
  }

  /** Python's `min` on two numbers, as used for slice bounds. */
  function Min(a: int, b: int): int
  {
    if a <= b then a else b
  }

  predicate NoSpace(s: string)
  {
    forall i :: 0 <= i < |s| ==> !IsSpace(s[i])
  }

  predicate AllSpace(s: string)
  {
    forall i :: 0 <= i < |s| ==> IsSpace(s[i])
  }

  /** True when s has neither leading nor trailing whitespace. */
  predicate IsStripped(s: string)
  {
    s == "" || (!IsSpace(s[0]) && !IsSpace(s[|s| - 1]))
  }

  /** p occurs in s starting at index i. */
  predicate OccursAt(s: string, p: string, i: int)
  {
    0 <= i && i + |p| <= |s| && forall k :: 0 <= k < |p| ==> s[i + k] == p[k]
  }

  /** Python's `p in s`. */
  predicate Contains(s: string, p: string)
  {
    exists i :: 0 <= i <= |s| - |p| && OccursAt(s, p, i)
  }

  /** An occurrence in t, where t sits in s at a, is an occurrence in s. */
  lemma OccursShift(s: string, t: string, a: nat, p: string, j: int)
    requires a + |t| <= |s| && forall i :: 0 <= i < |t| ==> t[i] == s[a + i]
    requires OccursAt(t, p, j)
    ensures OccursAt(s, p, a + j)
  {
    forall k | 0 <= k < |p|
      ensures s[a + j + k] == p[k]
    {
      assert t[j + k] == s[a + (j + k)];
    }
  }

  /** An occurrence of x + y is an occurrence of x followed by one of y. */
  lemma OccursSplit(s: string, x: string, y: string, i: int)
    requires OccursAt(s, x + y, i)
    ensures OccursAt(s, x, i) && OccursAt(s, y, i + |x|)
  {
    forall k | 0 <= k < |x|
      ensures s[i + k] == x[k]
    {
      assert (x + y)[k] == x[k];
    }
    forall k | 0 <= k < |y|
      ensures s[i + |x| + k] == y[k]
    {
      assert (x + y)[|x| + k] == y[k];
    }
  }

  /** The middle piece of a + b + c occurs at |a|. */
  lemma OccursInMiddle(a: string, b: string, c: string)
    ensures OccursAt(a + b + c, b, |a|)
  {
    var s := a + b + c;
    forall k | 0 <= k < |b|
      ensures s[|a| + k] == b[k]
    {
    }
  }

  /** The slice of s where x occurs is x. */
  lemma SliceAtOccurrence(s: string, x: string, i: int)
    requires OccursAt(s, x, i)
    ensures s[i..i + |x|] == x
  {
  }

  /** Where x occurs in s, s has x's characters, so none equal to a character x lacks. */
  lemma CharsOfOccurrence(s: string, x: string, i: int, c: char)
    requires OccursAt(s, x, i) && !Contains(x, [c])
    ensures forall j :: i <= j < i + |x| ==> s[j] != c
  {
    forall j | i <= j < i + |x|
      ensures s[j] != c
    {
      assert s[j] == x[j - i];
      assert !OccursAt(x, [c], j - i);
    }
  }

  /** A string that contains p has every enclosing string contain p. */
  lemma ContainsShift(s: string, t: string, a: nat, p: string)
    requires a + |t| <= |s| && forall i :: 0 <= i < |t| ==> t[i] == s[a + i]
    requires Contains(t, p)
    ensures Contains(s, p)
  {
    var j :| 0 <= j <= |t| - |p| && OccursAt(t, p, j);
    OccursShift(s, t, a, p, j);
  }

  // ---------------------------------------------------------------------------
  // find / rfind

  /** `s.find(p, k)`: the least index at or after k where p occurs, or -1. */
  function FindFrom(s: string, p: string, k: nat): (r: int)
    ensures r == -1 || (k <= r && OccursAt(s, p, r))
    ensures forall j :: k <= j && (r == -1 || j < r) ==> !OccursAt(s, p, j)
    decreases |s| - k
  {
    if k + |p| > |s| then -1
    else if OccursAt(s, p, k) then k
    else FindFrom(s, p, k + 1)
  }

  /** The first occurrence from k on is at b when p occurs at b and nowhere in between. */
  lemma FindFromAt(s: string, p: string, k: nat, b: nat)
    requires k <= b && OccursAt(s, p, b)
    requires forall j :: k <= j < b ==> !OccursAt(s, p, j)
    ensures FindFrom(s, p, k) == b
  {
  }

  /** What stands between k and the next occurrence of p does not contain p. */
  lemma FindFromGap(s: string, p: string, k: nat)
    requires p != "" && FindFrom(s, p, k) >= 0
    ensures !Contains(s[k..FindFrom(s, p, k)], p)
  {
    var e := FindFrom(s, p, k);
    var x := s[k..e];
    if Contains(x, p) {
      var j :| 0 <= j <= |x| - |p| && OccursAt(x, p, j);
      OccursShift(s, x, k, p, j);
    }
  }

  /** `s.find(p)`: the first occurrence of p, or -1 when there is none. */
  function Find(s: string, p: string): (r: int)
    ensures r == -1 <==> !Contains(s, p)
    ensures r >= 0 ==> OccursAt(s, p, r) && forall j :: 0 <= j < r ==> !OccursAt(s, p, j)
  {
    FindFrom(s, p, 0)
  }

  /** The greatest index below k where p occurs, or -1. */
  function RFindBelow(s: string, p: string, k: nat): (r: int)
    ensures r == -1 || (r < k && OccursAt(s, p, r))
    ensures forall j :: r < j < k ==> !OccursAt(s, p, j)
  {
    if k == 0 then -1
    else if OccursAt(s, p, k - 1) then k - 1
    else RFindBelow(s, p, k - 1)
  }

  /** `s.rfind(p)`: the last occurrence of p, or -1 when there is none. */
  function RFind(s: string, p: string): (r: int)
    ensures r == -1 <==> !Contains(s, p)
    ensures r >= 0 ==> OccursAt(s, p, r) && forall j :: r < j ==> !OccursAt(s, p, j)
  {
    RFindBelow(s, p, |s| + 1)
  }

  // ---------------------------------------------------------------------------
  // split(sep) / join / replace

  lemma NoOccurrenceBeforeFirst(s: string, p: string, i: nat)
    requires p != "" && i <= |s|
    requires forall j :: 0 <= j < i ==> !OccursAt(s, p, j)
    ensures !Contains(s[..i], p)
  {
    if Contains(s[..i], p) {
      var j :| OccursAt(s[..i], p, j);
      OccursShift(s, s[..i], 0, p, j);
    }
  }

  /**
   * `s.split(sep)` for a non-empty separator: the pieces between the occurrences of
   * sep found from the left without overlap.
   */
  function Split(s: string, sep: string): (r: seq<string>)
    requires sep != ""
    ensures |r| >= 1
    decreases |s|
  {
    var i := Find(s, sep);
    if i < 0 then [s] else [s[..i]] + Split(s[i + |sep|..], sep)
  }

  /** Splitting at the first occurrence of sep, at i: the piece before it, then the split of the rest. */
  lemma SplitAtFirst(s: string, sep: string, i: nat)
    requires sep != "" && OccursAt(s, sep, i)
    requires forall j :: 0 <= j < i ==> !OccursAt(s, sep, j)
    ensures Split(s, sep) == [s[..i]] + Split(s[i + |sep|..], sep)
  {
    SplitAtFirstFind(s, sep, i);
    SplitAtFind(s, sep, i);
  }

  /** A string without sep splits into itself alone. */
  lemma SplitWithout(s: string, sep: string)
    requires sep != "" && !Contains(s, sep)
    ensures Split(s, sep) == [s]
  {
  }

  /** No piece of a split contains the separator. */
  lemma {:induction false} SplitPiecesFree(s: string, sep: string)
    requires sep != ""
    ensures forall i :: 0 <= i < |Split(s, sep)| ==> !Contains(Split(s, sep)[i], sep)
    decreases |s|
  {
    var i := Find(s, sep);
    if i >= 0 {
      NoOccurrenceBeforeFirst(s, sep, i);
      SplitPiecesFree(s[i + |sep|..], sep);
      assert Split(s, sep) == [s[..i]] + Split(s[i + |sep|..], sep);
    }
  }

  /** `sep.join(xs)`. */
  function Join(xs: seq<string>, sep: string): string
    decreases |xs|
  {
    if |xs| == 0 then "" else if |xs| == 1 then xs[0] else xs[0] + sep + Join(xs[1..], sep)
  }

  /** Joining the pieces of a split with its separator gives back the string. */
  lemma {:induction false} JoinSplit(s: string, sep: string)
    requires sep != ""
    ensures Join(Split(s, sep), sep) == s
    decreases |s|
  {
    var i := Find(s, sep);
    if i >= 0 {
      var rest := s[i + |sep|..];
      var xs := Split(s, sep);
      JoinSplit(rest, sep);
      SplitAtFind(s, sep, i);
      assert xs[1..] == Split(rest, sep);
      assert Join(xs, sep) == s[..i] + sep + rest;
      AroundOccurrence(s, sep, i);
    }
  }

  /** A string is the text before an occurrence, the occurrence, and the text after it. */
  lemma AroundOccurrence(s: string, p: string, i: int)
    requires OccursAt(s, p, i)
    ensures s == s[..i] + p + s[i + |p|..]
  {
    var t := s[..i] + p + s[i + |p|..];
    forall m | 0 <= m < |s|
      ensures s[m] == t[m]
    {
      if i <= m < i + |p| {
        assert s[i + (m - i)] == p[m - i];
      }
    }
  }

  /** A join is at least as long as its first piece. */
  lemma JoinStartsWithFirst(xs: seq<string>, sep: string)
    requires xs != []
    ensures |Join(xs, sep)| >= |xs[0]|
  {
    if |xs| > 1 {
      assert Join(xs, sep) == xs[0] + sep + Join(xs[1..], sep);
    }
  }

  lemma {:induction false} JoinSnoc(xs: seq<string>, y: string, sep: string)
    requires xs != []
    ensures Join(xs + [y], sep) == Join(xs, sep) + sep + y
    decreases |xs|
  {
    if |xs| > 1 {
      JoinSnoc(xs[1..], y, sep);
      assert (xs + [y])[1..] == xs[1..] + [y];
    }
  }

  /** No proper suffix of sep is also a prefix of it, so two occurrences of sep never overlap. */
  predicate NoSelfOverlap(sep: string)
  {
    forall k :: 0 < k < |sep| ==> sep[k..] != sep[..|sep| - k]
  }

  /**
   * In p + sep + rest, where p does not contain sep and sep cannot overlap itself, the
   * first occurrence of sep is the one right after p.
   */
  lemma FindAfterPiece(p: string, sep: string, rest: string)
    requires sep != "" && NoSelfOverlap(sep) && !Contains(p, sep)
    ensures Find(p + sep + rest, sep) == |p|
  {
    var s := p + sep + rest;
    assert OccursAt(s, sep, |p|) by {
      assert forall k :: 0 <= k < |sep| ==> s[|p| + k] == sep[k];
    }
    forall j | 0 <= j < |p|
      ensures !OccursAt(s, sep, j)
    {
      if j + |sep| <= |p| {
        assert forall m :: j <= m < j + |sep| ==> s[m] == p[m];
        assert !OccursAt(p, sep, j);
      } else {
        var d := |p| - j;
        assert sep[d..] != sep[..|sep| - d];
        assert exists k :: 0 <= k < |sep| - d && sep[d..][k] != sep[..|sep| - d][k];
        var k :| 0 <= k < |sep| - d && sep[d..][k] != sep[..|sep| - d][k];
        assert s[j + (d + k)] == s[|p| + k] == sep[k];
        assert s[j + (d + k)] != sep[d + k];
      }
    }
  }

  lemma OccursInPrefix(a: string, t: string, sep: string, j: nat)
    requires j + |sep| <= |a|
    ensures OccursAt(a + t, sep, j) == OccursAt(a, sep, j)
  {
    assert forall m :: j <= m < j + |sep| ==> (a + t)[m] == a[m];
  }

  /** The first occurrence of sep in a is still the first once more text follows. */
  lemma FindInPrefix(a: string, t: string, sep: string)
    requires sep != "" && Find(a, sep) >= 0
    ensures Find(a + t, sep) == Find(a, sep)
  {
    var i := Find(a, sep);
    OccursInPrefix(a, t, sep, i);
    forall j | 0 <= j < i
      ensures !OccursAt(a + t, sep, j)
    {
      OccursInPrefix(a, t, sep, j);
    }
    SplitAtFirstFind(a + t, sep, i);
  }

  lemma SplitAtFirstFind(s: string, sep: string, i: nat)
    requires sep != "" && OccursAt(s, sep, i)
    requires forall j :: 0 <= j < i ==> !OccursAt(s, sep, j)
    ensures Find(s, sep) == i
  {
  }

  /** When a does not contain sep, a + sep + b splits into a, then the pieces of b. */
  lemma SplitAfterPiece(a: string, b: string, sep: string)
    requires sep != "" && NoSelfOverlap(sep) && !Contains(a, sep)
    ensures Split(a + sep + b, sep) == [a] + Split(b, sep)
  {
    var s := a + sep + b;
    FindAfterPiece(a, sep, b);
    assert s[..|a|] == a && s[|a| + |sep|..] == b;
  }

  /** When a contains sep, first at i, a + sep + b first splits where a does. */
  lemma SplitInPrefix(a: string, b: string, sep: string, i: nat)
    requires sep != "" && Find(a, sep) == i
    ensures Split(a + sep + b, sep) == [a[..i]] + Split(a[i + |sep|..] + sep + b, sep)
  {
    var s := a + sep + b;
    var rest := a[i + |sep|..] + sep + b;
    assert s == a + (sep + b);
    FindInPrefix(a, sep + b, sep);
    SplitAtFind(s, sep, i);
    assert s[..i] == a[..i];
    assert s[i + |sep|..] == rest;
    SplitOfEqual(s[i + |sep|..], rest, sep);
  }

  lemma SplitOfEqual(s: string, t: string, sep: string)
    requires sep != "" && s == t
    ensures Split(s, sep) == Split(t, sep)
  {
  }

  lemma SplitAtFind(s: string, sep: string, i: nat)
    requires sep != "" && Find(s, sep) == i
    ensures Split(s, sep) == [s[..i]] + Split(s[i + |sep|..], sep)
  {
  }

  /**
   * Splitting a + sep + b splits a and b on their own, when sep cannot overlap itself:
   * no occurrence of sep can then straddle either junction.
   */
  lemma {:induction false} SplitConcat(a: string, b: string, sep: string)
    requires sep != "" && NoSelfOverlap(sep)
    ensures Split(a + sep + b, sep) == Split(a, sep) + Split(b, sep)
    decreases |a|
  {
    var i := Find(a, sep);
    if i < 0 {
      SplitAfterPiece(a, b, sep);
      SplitWithout(a, sep);
    } else {
      var rest := a[i + |sep|..];
      SplitInPrefix(a, b, sep, i);
      SplitConcat(rest, b, sep);
      SplitAtFirst(a, sep, i);
      AppendAssoc([a[..i]], Split(rest, sep), Split(b, sep));
    }
  }

  /**
   * Splitting pieces joined with sep gives back the pieces, when none of them contains
   * sep and sep cannot overlap itself.
   */
  lemma {:induction false} SplitJoin(xs: seq<string>, sep: string)
    requires sep != "" && NoSelfOverlap(sep) && xs != []
    requires forall i :: 0 <= i < |xs| ==> !Contains(xs[i], sep)
    ensures Split(Join(xs, sep), sep) == xs
    decreases |xs|
  {
    if |xs| == 1 {
      assert Find(xs[0], sep) == -1;
    } else {
      var tail := Join(xs[1..], sep);
      var s := Join(xs, sep);
      assert s == xs[0] + sep + tail;
      FindAfterPiece(xs[0], sep, tail);
      assert s[..|xs[0]|] == xs[0];
      assert s[|xs[0]| + |sep|..] == tail;
      SplitJoin(xs[1..], sep);
      assert Split(s, sep) == [xs[0]] + xs[1..];
    }
  }

  /**
   * `s.replace(p, "")` for a non-empty p: deletes the occurrences of p found from the
   * left without overlap, in one pass (what is left may contain p again).
   */
  function Remove(s: string, p: string): (r: string)
    requires p != ""
    ensures |r| <= |s|
    ensures !Contains(s, p) ==> r == s
    decreases |s|
  {
    var i := Find(s, p);
    if i < 0 then s else s[..i] + Remove(s[i + |p|..], p)
  }

  /** Python's identity `s.replace(p, "") == "".join(s.split(p))`. */
  lemma {:induction false} RemoveJoinsPieces(s: string, p: string)
    requires p != ""
    ensures Remove(s, p) == Join(Split(s, p), "")
    decreases |s|
  {
    var i := Find(s, p);
    if i >= 0 {
      var rest := s[i + |p|..];
      var xs := Split(s, p);
      RemoveJoinsPieces(rest, p);
      assert xs == [s[..i]] + Split(rest, p);
      assert xs[1..] == Split(rest, p);
      assert Join(xs, "") == s[..i] + "" + Join(Split(rest, p), "");
    }
  }

  // ---------------------------------------------------------------------------
  // strip

  /** s without its leading whitespace. */
  function TrimStart(s: string): (r: string)
    ensures |r| <= |s|
    ensures r == "" || !IsSpace(r[0])
    ensures s != "" && IsSpace(s[0]) ==> |r| < |s|
    decreases |s|
  {
    if s != "" && IsSpace(s[0]) then TrimStart(s[1..]) else s
  }

  /** s is some whitespace followed by what TrimStart leaves. */
  lemma {:induction false} TrimStartSplit(s: string) returns (w: string)
    ensures s == w + TrimStart(s) && AllSpace(w)
    decreases |s|
  {
    if s != "" && IsSpace(s[0]) {
      var w' := TrimStartSplit(s[1..]);
      w := [s[0]] + w';
      assert s == [s[0]] + (w' + TrimStart(s[1..]));
      assert [s[0]] + (w' + TrimStart(s[1..])) == w + TrimStart(s[1..]);
      forall i | 0 <= i < |w|
        ensures IsSpace(w[i])
      {
        if i > 0 {
          assert w[i] == w'[i - 1];
        }
      }
    } else {
      w := "";
    }
  }

  /** TrimStart keeps the last character. */
  lemma {:induction false} TrimStartLast(s: string)
    ensures TrimStart(s) != "" ==> TrimStart(s)[|TrimStart(s)| - 1] == s[|s| - 1]
    decreases |s|
  {
    if s != "" && IsSpace(s[0]) {
      TrimStartLast(s[1..]);
    }
  }

  /** TrimStart leaves nothing exactly of a blank string. */
  lemma {:induction false} TrimStartBlank(s: string)
    ensures TrimStart(s) == "" <==> AllSpace(s)
    decreases |s|
  {
    if s != "" && IsSpace(s[0]) {
      TrimStartBlank(s[1..]);
      assert AllSpace(s) <==> AllSpace(s[1..]) by {
        assert forall i :: 1 <= i < |s| ==> s[i] == s[1..][i - 1];
      }
    }
  }

  /** s without its trailing whitespace. */
  function TrimEnd(s: string): (r: string)
    ensures |r| <= |s|
    ensures r == "" || !IsSpace(r[|r| - 1])
    decreases |s|
  {
    if s != "" && IsSpace(s[|s| - 1]) then TrimEnd(s[..|s| - 1]) else s
  }

  /** What TrimEnd leaves is a prefix of s, and only whitespace follows it. */
  lemma {:induction false} TrimEndSlice(s: string)
    ensures forall i :: 0 <= i < |TrimEnd(s)| ==> TrimEnd(s)[i] == s[i]
    ensures forall i :: |TrimEnd(s)| <= i < |s| ==> IsSpace(s[i])
    decreases |s|
  {
    if s != "" && IsSpace(s[|s| - 1]) {
      TrimEndSlice(s[..|s| - 1]);
    }
  }

  /** s is what TrimEnd leaves followed by some whitespace. */
  lemma {:induction false} TrimEndSplit(s: string) returns (t: string)
    ensures s == TrimEnd(s) + t && AllSpace(t)
    decreases |s|
  {
    if s != "" && IsSpace(s[|s| - 1]) {
      var t' := TrimEndSplit(s[..|s| - 1]);
      t := t' + [s[|s| - 1]];
      assert s == s[..|s| - 1] + [s[|s| - 1]];
    } else {
      t := "";
    }
  }

  /** `s.strip()`: s with its leading and trailing whitespace cut. */
  function Strip(s: string): (r: string)
    ensures IsStripped(r) && |r| <= |s|
  {
    var e := TrimEnd(s);
    TrimStartLast(e);
    TrimStart(e)
  }

  /**
   * What strip leaves sits in s at some index a, with only whitespace before a and
   * after a + |Strip(s)|.
   */
  lemma StripSlice(s: string)
    ensures exists a :: StripsTo(s, Strip(s), a)
  {
    var a := StripOffset(s);
  }

  /** r sits in s at a, and everything of s around it is whitespace. */
  predicate StripsTo(s: string, r: string, a: int)
  {
    0 <= a && a + |r| <= |s|
    && (forall i :: 0 <= i < |r| ==> r[i] == s[a + i])
    && (forall i :: 0 <= i < a ==> IsSpace(s[i]))
    && (forall i :: a + |r| <= i < |s| ==> IsSpace(s[i]))
  }

  lemma StripOffset(s: string) returns (a: nat)
    ensures StripsTo(s, Strip(s), a)
  {
    var e := TrimEnd(s);
    var t := TrimEndSplit(s);
    var w := TrimStartSplit(e);
    a := |w|;
    assert s == w + Strip(s) + t;
    StripsToAround(w, Strip(s), t);
  }

  /** r sits at |w| in w + r + t, with blanks w and t around it. */
  lemma StripsToAround(w: string, r: string, t: string)
    requires AllSpace(w) && AllSpace(t)
    ensures StripsTo(w + r + t, r, |w|)
  {
    var s := w + r + t;
    forall i | 0 <= i < |w|
      ensures IsSpace(s[i])
    {
      assert s[i] == w[i];
    }
    forall i | |w| + |r| <= i < |s|
      ensures IsSpace(s[i])
    {
      assert s[i] == t[i - |w| - |r|];
    }
  }

  /** Strip gives the empty string exactly for a blank string. */
  lemma StripBlank(s: string)
    ensures Strip(s) == "" <==> AllSpace(s)
  {
    var e := TrimEnd(s);
    TrimEndSlice(s);
    TrimStartBlank(e);
    if e != "" {
      assert e[|e| - 1] == s[|e| - 1];
    }
  }

  /** A space in front of what TrimEnd keeps survives it, unless nothing is kept. */
  lemma {:induction false} TrimEndAfterSpace(x: string)
    ensures TrimEnd(" " + x) == if TrimEnd(x) == "" then "" else " " + TrimEnd(x)
    decreases |x|
  {
    var s := " " + x;
    if x == "" {
      assert s[..|s| - 1] == "";
    } else if IsSpace(x[|x| - 1]) {
      assert s[|s| - 1] == x[|x| - 1];
      assert s[..|s| - 1] == " " + x[..|x| - 1];
      TrimEndAfterSpace(x[..|x| - 1]);
    } else {
      assert s[|s| - 1] == x[|x| - 1];
    }
  }

  /** Strip ignores one leading space. */
  lemma StripLeadingSpace(x: string)
    ensures Strip(" " + x) == Strip(x)
  {
    TrimEndAfterSpace(x);
    var e := TrimEnd(x);
    if e != "" {
      assert (" " + e)[1..] == e;
    }
  }

  /** Strip leaves a stripped string alone, so it is idempotent. */
  lemma StripStripped(s: string)
    requires IsStripped(s)
    ensures Strip(s) == s
  {
  }

  /** An occurrence of p starting and followed by non-whitespace is kept by strip. */
  lemma StripKeepsInner(s: string, p: string, i: nat)
    requires OccursAt(s, p, i) && i + |p| < |s|
    requires !IsSpace(s[i]) && !IsSpace(s[i + |p|])
    ensures Contains(Strip(s), p)
  {
    var a := StripOffset(s);
    var r := Strip(s);
    assert a <= i < a + |r|;
    assert i + |p| < a + |r|;
    forall k | 0 <= k < |p|
      ensures r[i - a + k] == p[k]
    {
      assert r[i - a + k] == s[a + (i - a + k)];
    }
    assert OccursAt(r, p, i - a);
  }

  /** An occurrence inside the slice s[lo..hi] is an occurrence in the slice. */
  lemma OccursInSlice(s: string, p: string, i: nat, lo: nat, hi: nat)
    requires OccursAt(s, p, i) && lo <= i && i + |p| <= hi <= |s|
    ensures OccursAt(s[lo..hi], p, i - lo)
  {
    forall k | 0 <= k < |p|
      ensures s[lo..hi][i - lo + k] == p[k]
    {
      assert s[lo..hi][i - lo + k] == s[i + k];
    }
  }

  /** A stripped string contains p only if the original does. */
  lemma StripContains(s: string, p: string)
    requires Contains(Strip(s), p)
    ensures Contains(s, p)
  {
    var a := StripOffset(s);
    ContainsShift(s, Strip(s), a, p);
  }

  // ---------------------------------------------------------------------------
  // [x.strip() for x in lines if x.strip()]

  /** One line of the filter: the stripped line, or nothing when it is blank. */
  function StripLine(line: string): (r: seq<string>)
    ensures |r| <= 1 && forall i :: 0 <= i < |r| ==> r[i] != "" && IsStripped(r[i])
  {
    if Strip(line) == "" then [] else [Strip(line)]
  }

  /** The stripped lines, blank ones dropped, order kept. */
  function StripAll(lines: seq<string>): (r: seq<string>)
    ensures |r| <= |lines|
    ensures forall i :: 0 <= i < |r| ==> r[i] != "" && IsStripped(r[i])
  {
    if lines == [] then [] else StripLine(lines[0]) + StripAll(lines[1..])
  }

  /** The filter works line by line: the lines of a + b give those of a, then those of b. */
  lemma {:induction false} StripAllAppend(a: seq<string>, b: seq<string>)
    ensures StripAll(a + b) == StripAll(a) + StripAll(b)
    decreases |a|
  {
    if a == [] {
      assert a + b == b;
    } else {
      var head := StripLine(a[0]);
      assert (a + b)[0] == a[0];
      assert (a + b)[1..] == a[1..] + b;
      assert StripAll(a + b) == head + StripAll(a[1..] + b);
      StripAllAppend(a[1..], b);
      assert StripAll(a) == head + StripAll(a[1..]);
      AppendAssoc(head, StripAll(a[1..]), StripAll(b));
    }
  }

  lemma AppendAssoc(a: seq<string>, b: seq<string>, c: seq<string>)
    ensures a + (b + c) == (a + b) + c
  {
  }

  /** Lines that are already non-blank and stripped pass through unchanged. */
  lemma {:induction false} StripAllClean(lines: seq<string>)
    requires forall i :: 0 <= i < |lines| ==> lines[i] != "" && IsStripped(lines[i])
    ensures StripAll(lines) == lines
    decreases |lines|
  {
    if lines != [] {
      StripStripped(lines[0]);
      StripAllClean(lines[1..]);
    }
  }

  const Newline := "\n"

  /** `[x.strip() for x in s.split("\n") if x.strip()]`. */
  function StrippedLines(s: string): (r: seq<string>)
    ensures forall i :: 0 <= i < |r| ==> r[i] != "" && IsStripped(r[i])
  {
    StripAll(Split(s, Newline))
  }

  /** No line the filter gives holds a line break. */
  lemma StrippedLinesNoBreak(s: string)
    ensures forall i :: 0 <= i < |StrippedLines(s)| ==> !Contains(StrippedLines(s)[i], Newline)
  {
    var lines := Split(s, Newline);
    SplitPiecesFree(s, Newline);
    forall i | 0 <= i < |StrippedLines(s)|
      ensures !Contains(StrippedLines(s)[i], Newline)
    {
      StripAllLineFree(lines, i);
    }
  }

  lemma {:induction false} StripAllLineFree(lines: seq<string>, i: nat)
    requires forall j :: 0 <= j < |lines| ==> !Contains(lines[j], Newline)
    requires i < |StripAll(lines)|
    ensures !Contains(StripAll(lines)[i], Newline)
    decreases |lines|
  {
    var head := StripLine(lines[0]);
    if i < |head| {
      if Contains(Strip(lines[0]), Newline) {
        StripContains(lines[0], Newline);
      }
    } else {
      StripAllLineFree(lines[1..], i - |head|);
    }
  }

  /** A text without a line break is one line: it gives its stripped self, or nothing when blank. */
  lemma OneLine(s: string)
    requires !Contains(s, Newline)
    ensures StrippedLines(s) == if Strip(s) == "" then [] else [Strip(s)]
  {
    assert Split(s, Newline) == [s];
  }

  /** Clean lines joined with line breaks are given back by the line filter. */
  lemma LinesOfJoin(lines: seq<string>)
    requires forall i :: 0 <= i < |lines| ==> lines[i] != "" && IsStripped(lines[i]) && !Contains(lines[i], Newline)
    ensures StrippedLines(Join(lines, Newline)) == lines
  {
    if lines == [] {
      assert Split("", Newline) == [""];
    } else {
      SplitJoin(lines, Newline);
      StripAllClean(lines);
    }
  }

  // ---------------------------------------------------------------------------
  // split() and re.sub(r"\s+", " ", s)

  /** The length of the run of non-whitespace characters s starts with. */
  function WordLength(s: string): (n: nat)
    ensures n <= |s| && NoSpace(s[..n]) && (n == |s| || IsSpace(s[n]))
    ensures s != "" && !IsSpace(s[0]) ==> n >= 1
    decreases |s|
  {
    if s == "" || IsSpace(s[0]) then 0
    else
      var n := WordLength(s[1..]);
      assert s[..n + 1] == [s[0]] + s[1..][..n];
      1 + n
  }

  /** `s.split()`: the maximal runs of non-whitespace characters of s, in order. */
  function Words(s: string): (r: seq<string>)
    ensures forall i :: 0 <= i < |r| ==> r[i] != "" && NoSpace(r[i])
    decreases |s|
  {
    var t := TrimStart(s);
    if t == "" then []
    else
      var n := WordLength(t);
      var w := t[..n];
      var rest := Words(t[n..]);
      assert w != "" && NoSpace(w);
      [w] + rest
  }

  /** A string has no words exactly when it is blank. */
  lemma WordsBlank(s: string)
    ensures Words(s) == [] <==> AllSpace(s)
  {
    TrimStartBlank(s);
  }

  lemma WordsAfterSpace(x: string)
    ensures Words(" " + x) == Words(x)
  {
    assert (" " + x)[1..] == x;
    assert TrimStart(" " + x) == TrimStart(x);
  }

  /** A word followed by whitespace (or nothing) is the first word. */
  lemma WordsCons(w: string, rest: string)
    requires w != "" && NoSpace(w)
    requires rest == "" || IsSpace(rest[0])
    ensures Words(w + rest) == [w] + Words(rest)
  {
    var j := w + rest;
    assert j[0] == w[0];
    assert TrimStart(j) == j;
    WordLengthOf(w, rest);
    assert j[..|w|] == w;
    assert j[|w|..] == rest;
  }

  lemma WordsConsSpace(w: string, tail: string)
    requires w != "" && NoSpace(w)
    ensures Words(w + (" " + tail)) == [w] + Words(tail)
  {
    WordsCons(w, " " + tail);
    WordsAfterSpace(tail);
  }

  lemma WordsOfJoinCons(ws: seq<string>)
    requires |ws| > 1 && ws[0] != "" && NoSpace(ws[0])
    requires Words(Join(ws[1..], " ")) == ws[1..]
    ensures Words(Join(ws, " ")) == ws
  {
    var tail := Join(ws[1..], " ");
    assert Join(ws, " ") == ws[0] + (" " + tail);
    WordsConsSpace(ws[0], tail);
    assert [ws[0]] + ws[1..] == ws;
  }

  /** Splitting words joined by single spaces gives back the words. */
  lemma {:induction false} WordsOfJoin(ws: seq<string>)
    requires forall i :: 0 <= i < |ws| ==> ws[i] != "" && NoSpace(ws[i])
    ensures Words(Join(ws, " ")) == ws
    decreases |ws|
  {
    if |ws| == 1 {
      WordsCons(ws[0], "");
      assert ws[0] + "" == ws[0];
    } else if |ws| > 1 {
      WordsOfJoin(ws[1..]);
      WordsOfJoinCons(ws);
    }
  }

  lemma {:induction false} WordLengthOf(w: string, rest: string)
    requires NoSpace(w)
    requires rest == "" || IsSpace(rest[0])
    ensures WordLength(w + rest) == |w|
    decreases |w|
  {
    if w != "" {
      var x := w + rest;
      assert x[0] == w[0] && !IsSpace(w[0]);
      assert x[1..] == w[1..] + rest;
      assert NoSpace(w[1..]) by {
        forall i | 0 <= i < |w| - 1
          ensures !IsSpace(w[1..][i])
        {
          assert w[1..][i] == w[i + 1];
        }
      }
      WordLengthOf(w[1..], rest);
    }
  }

  /**
   * `re.sub(r"\s+", " ", s)`: every maximal run of whitespace becomes a single space,
   * so the only whitespace left is single spaces between other characters.
   */
  function CollapseSpaces(s: string): (r: string)
    ensures |r| <= |s|
    ensures s != "" ==> r != "" && (IsSpace(r[0]) <==> IsSpace(s[0]))
    ensures forall i :: 0 <= i < |r| && IsSpace(r[i]) ==> r[i] == ' ' && (i + 1 < |r| ==> !IsSpace(r[i + 1]))
    decreases |s|
  {
    if s == "" then ""
    else if IsSpace(s[0]) then " " + CollapseSpaces(TrimStart(s))
    else [s[0]] + CollapseSpaces(s[1..])
  }

  // ---------------------------------------------------------------------------
  // str(n)

  function DigitChar(d: nat): (c: char)
    requires d < 10
    ensures IsDigit(c) && c as int - '0' as int == d
  {
    (48 + d) as char
  }

  /** The decimal value of a string of digits. */
  function DigitsValue(s: string): nat
    requires forall i :: 0 <= i < |s| ==> IsDigit(s[i])
  {
    if s == "" then 0
    else
      assert IsDigit(s[|s| - 1]);
      10 * DigitsValue(s[..|s| - 1]) + (s[|s| - 1] as int - '0' as int)
  }

  /** `str(n)` for a natural number: its decimal digits. */
  function NatToString(n: nat): (r: string)
    ensures r != "" && forall i :: 0 <= i < |r| ==> IsDigit(r[i])
    decreases n
  {
    if n < 10 then [DigitChar(n)] else NatToString(n / 10) + [DigitChar(n % 10)]
  }

  /** The digits of n read back as n. */
  lemma {:induction false} NatToStringValue(n: nat)
    ensures DigitsValue(NatToString(n)) == n
    decreases n
  {
    if n >= 10 {
      var r := NatToString(n);
      NatToStringValue(n / 10);
      assert r[..|r| - 1] == NatToString(n / 10);
    }
  }
}

/**
 String operations the review tool relies on: JavaScript whitespace and `trim`,
 substring occurrences, `split`/`join` on a separator, and decimal numerals.
 Whitespace is the ASCII part of JavaScript's `\s` class.
 */
module Strings {
  import opened Results

  predicate IsSpace(c: char) {
    c == ' ' || c == '\t' || c == '\n' || c == '\r' || c == '\U{000B}' || c == '\U{000C}'
  }

  predicate IsDigit(c: char) {
    '0' <= c <= '9'
  }

  predicate AllSpace(s: string) {
    forall k :: 0 <= k < |s| ==> IsSpace(s[k])
  }

  predicate AllDigits(s: string) {
    forall k :: 0 <= k < |s| ==> IsDigit(s[k])
  }

  predicate HasNonSpace(s: string) {
    exists k :: 0 <= k < |s| && !IsSpace(s[k])
  }

  // ---------------------------------------------------------------------------
  // Trimming
  // ---------------------------------------------------------------------------

  /** Drops the leading whitespace. */
  function TrimStart(s: string): (r: string)
    ensures |r| <= |s| && r == s[|s| - |r|..]
    ensures AllSpace(s[..|s| - |r|])
    ensures r == [] || !IsSpace(r[0])
  {
    if |s| > 0 && IsSpace(s[0]) then
      var r := TrimStart(s[1..]);
      assert s[..|s| - |r|] == [s[0]] + s[1..][..|s| - 1 - |r|];
      r
    else s
  }

  /** Drops the trailing whitespace. */
  function TrimEnd(s: string): (r: string)
    ensures |r| <= |s| && r == s[..|r|]
    ensures AllSpace(s[|r|..])
    ensures r == [] || !IsSpace(r[|r| - 1])
  {
    if |s| > 0 && IsSpace(s[|s| - 1]) then
      var r := TrimEnd(s[..|s| - 1]);
      assert s[|r|..] == s[..|s| - 1][|r|..] + [s[|s| - 1]];
      r
    else s
  }

  /** JavaScript's `String.prototype.trim`. */
  function Trim(s: string): string {
    TrimEnd(TrimStart(s))
  }

  lemma {:induction false} TrimStartSkipsSpace(w: string, s: string)
    requires AllSpace(w)
    ensures TrimStart(w + s) == TrimStart(s)
    decreases |w|
  {
    if |w| > 0 {
      assert (w + s)[1..] == w[1..] + s;
      TrimStartSkipsSpace(w[1..], s);
    } else {
      assert w + s == s;
    }
  }

  /** Leading whitespace never changes what `trim` returns. */
  lemma TrimSkipsSpace(w: string, s: string)
    requires AllSpace(w)
    ensures Trim(w + s) == Trim(s)
  {
    TrimStartSkipsSpace(w, s);
  }

  /** A string that begins and ends with a non-space character is its own trim. */
  lemma TrimKeeps(s: string)
    requires s == [] || (!IsSpace(s[0]) && !IsSpace(s[|s| - 1]))
    ensures Trim(s) == s
  {
  }

  // ---------------------------------------------------------------------------
  // Occurrences of a pattern
  // ---------------------------------------------------------------------------

  predicate OccursAt(s: string, pat: string, i: int) {
    0 <= i && i + |pat| <= |s| && s[i..i + |pat|] == pat
  }

  predicate Contains(s: string, pat: string) {
    exists i :: 0 <= i <= |s| && OccursAt(s, pat, i)
  }

  /** The first position at or after `from` where `pat` occurs (JavaScript's `indexOf(pat, from)`). */
  function FindFrom(s: string, pat: string, from: nat): (r: Option<nat>)
    decreases |s| - from
    ensures r.Some? ==> from <= r.value && OccursAt(s, pat, r.value)
    ensures forall j :: from <= j && (r.None? || j < r.value) ==> !OccursAt(s, pat, j)
  {
    if from + |pat| > |s| then None
    else if s[from..from + |pat|] == pat then Some(from)
    else FindFrom(s, pat, from + 1)
  }

  /** `pat` cannot overlap a copy of itself: no proper suffix is also a prefix. */
  predicate NoBorder(pat: string) {
    forall t :: 0 < t < |pat| ==> pat[t..] != pat[..|pat| - t]
  }

  /** Every pattern that starts with two line feeds and has none after them is free of borders. */
  lemma NoBorderAfterBreaks(pat: string)
    requires |pat| >= 3 && pat[0] == '\n' && pat[1] == '\n' && '\n' !in pat[2..]
    ensures NoBorder(pat)
  {
    forall t | 0 < t < |pat|
      ensures pat[t..] != pat[..|pat| - t]
    {
      if t >= 2 {
        assert pat[t] == pat[2..][t - 2];
        assert pat[t..][0] != pat[..|pat| - t][0];
      } else {
        assert pat[2] == pat[2..][0];
        assert pat[t..][1] != pat[..|pat| - t][1];
      }
    }
  }

  /** An occurrence that lies wholly in the left part of a concatenation is an occurrence in that part. */
  lemma OccursInLeft(a: string, b: string, pat: string, i: int)
    requires 0 <= i && i + |pat| <= |a|
    ensures OccursAt(a + b, pat, i) <==> OccursAt(a, pat, i)
  {
    assert (a + b)[i..i + |pat|] == a[i..i + |pat|];
  }

  /** An occurrence that lies wholly in the right part of a concatenation is an occurrence in that part. */
  lemma OccursInRight(a: string, b: string, pat: string, i: int)
    requires |a| <= i
    ensures OccursAt(a + b, pat, i) <==> OccursAt(b, pat, i - |a|)
  {
    if i + |pat| <= |a + b| {
      assert (a + b)[i..i + |pat|] == b[i - |a|..i - |a| + |pat|];
    }
  }

  /** An occurrence of `x + y` at `i` contains an occurrence of `y` at `i + |x|`. */
  lemma OccursSuffix(s: string, x: string, y: string, i: int)
    requires OccursAt(s, x + y, i)
    ensures OccursAt(s, y, i + |x|)
  {
    assert s[i + |x|..i + |x| + |y|] == s[i..i + |x + y|][|x|..];
  }

  /** An occurrence fixes every character it covers. */
  lemma OccursChar(s: string, pat: string, i: int, k: int)
    requires OccursAt(s, pat, i) && i <= k < i + |pat|
    ensures s[k] == pat[k - i]
  {
    assert s[k] == s[i..i + |pat|][k - i];
  }

  /**
   A search from `from` finds a border-free tag at `to` when the tag occurs there and
   the text between does not contain it.
   */
  lemma FindNext(t: string, tag: string, from: nat, to: nat)
    requires NoBorder(tag) && from <= to && OccursAt(t, tag, to) && !Contains(t[from..to], tag)
    ensures FindFrom(t, tag, from) == Some(to)
  {
    forall x | from <= x < to ensures !OccursAt(t, tag, x) {
      if x + |tag| <= to {
        assert !OccursAt(t[from..to], tag, x - from);
        SliceOfSlice(t, from, to, x, |tag|);
      } else {
        var d := to - x;
        assert tag[d..] != tag[..|tag| - d];
        var k :| 0 <= k < |tag| - d && tag[d..][k] != tag[..|tag| - d][k];
        assert t[to + k] == tag[k];
        assert tag[d + k] != tag[k];
      }
    }
  }

  /** A heading made of two line feeds and a line-feed-free name cannot overlap itself. */
  lemma ParagraphHeading(name: string)
    requires '\n' !in name && |name| > 0
    ensures NoBorder("\n\n" + name)
  {
    var p := "\n\n" + name;
    assert p[2..] == name;
    NoBorderAfterBreaks(p);
  }

  /** A stretch of a slice is the same stretch of the whole string. */
  lemma SliceOfSlice(t: string, from: nat, to: nat, x: nat, m: nat)
    requires from <= x && x + m <= to <= |t|
    ensures t[from..to][x - from..x - from + m] == t[x..x + m]
  {
    var u, v := t[from..to][x - from..x - from + m], t[x..x + m];
    assert |u| == |v| && forall k :: 0 <= k < |u| ==> u[k] == v[k];
  }

  /** An occurrence starts with the pattern's first character. */
  lemma StartChar(s: string, pat: string, i: int)
    requires |pat| > 0 && OccursAt(s, pat, i)
    ensures s[i] == pat[0]
  {
    OccursChar(s, pat, i, i);
  }

  /** A slice of a string that does not contain a pattern does not contain it either. */
  lemma ContainsSlice(s: string, pat: string, lo: nat, hi: nat)
    requires lo <= hi <= |s| && !Contains(s, pat)
    ensures !Contains(s[lo..hi], pat)
  {
    forall i | 0 <= i <= hi - lo ensures !OccursAt(s[lo..hi], pat, i) {
      if i + |pat| <= hi - lo {
        SliceOfSlice(s, lo, hi, lo + i, |pat|);
        assert !OccursAt(s, pat, lo + i);
      }
    }
  }

  /** No character of `s` appears in `pat`. */
  predicate Avoids(s: string, pat: string) {
    forall k :: 0 <= k < |s| ==> s[k] !in pat
  }

  /**
   An occurrence in `a + b + c` cannot touch a non-empty middle part that shares no
   character with the pattern: it lies wholly in `a` or wholly in `c`.
   */
  lemma AvoidedMiddle(a: string, b: string, c: string, pat: string, i: int)
    requires Avoids(b, pat) && |b| > 0 && |pat| > 0
    ensures OccursAt(a + b + c, pat, i) ==>
      (i + |pat| <= |a| && OccursAt(a, pat, i)) || (|a| + |b| <= i && OccursAt(c, pat, i - |a| - |b|))
  {
    var s := a + b + c;
    if OccursAt(s, pat, i) {
      var k := if i < |a| then |a| else i;
      if |a| <= k < |a| + |b| && k < i + |pat| {
        OccursChar(s, pat, i, k);
        assert false;
      }
      if i + |pat| <= |a| {
        assert s == a + (b + c);
        OccursInLeft(a, b + c, pat, i);
      } else {
        OccursInRight(a + b, c, pat, i);
      }
    }
  }

  /** Gluing two texts free of a pattern with a middle part it avoids keeps the pattern out. */
  lemma NotContainsAround(a: string, b: string, c: string, pat: string)
    requires Avoids(b, pat) && |b| > 0 && |pat| > 0 && !Contains(a, pat) && !Contains(c, pat)
    ensures !Contains(a + b + c, pat)
  {
    forall i | 0 <= i <= |a + b + c| ensures !OccursAt(a + b + c, pat, i) {
      AvoidedMiddle(a, b, c, pat, i);
    }
  }

  /** A pattern missing from `a` does not start before the end of a middle part it avoids. */
  lemma NoneBefore(a: string, b: string, c: string, pat: string)
    requires Avoids(b, pat) && |b| > 0 && |pat| > 0 && !Contains(a, pat)
    ensures forall j :: 0 <= j < |a| + |b| ==> !OccursAt(a + b + c, pat, j)
  {
    forall j | 0 <= j < |a| + |b| ensures !OccursAt(a + b + c, pat, j) {
      AvoidedMiddle(a, b, c, pat, j);
    }
  }

  /**
   A pattern whose first character does not recur in it, found at the end of `a`,
   occurs later only inside the text `t` that follows it.
   */
  lemma NoneAfter(a: string, pat: string, t: string)
    requires |pat| > 0 && pat[0] !in pat[1..] && !Contains(t, pat)
    ensures forall j :: |a| < j ==> !OccursAt(a + pat + t, pat, j)
  {
    var s := a + pat + t;
    forall j | |a| < j ensures !OccursAt(s, pat, j) {
      if j < |a| + |pat| {
        if j + |pat| <= |s| {
          assert s[j..j + |pat|][0] == s[j] == pat[j - |a|] == pat[1..][j - |a| - 1];
        }
      } else {
        OccursInRight(a + pat, t, pat, j);
      }
    }
  }

  /** A text without the first character of a pattern does not contain it. */
  lemma MissingFirstChar(s: string, pat: string)
    requires |pat| > 0 && pat[0] !in s
    ensures !Contains(s, pat)
  {
    forall i | 0 <= i <= |s| && i + |pat| <= |s|
      ensures !OccursAt(s, pat, i)
    {
      assert s[i..i + |pat|][0] == s[i];
    }
  }

  /**
   When the pattern's character at `idx` is missing from `b` and `a` is no longer
   than `idx`, an occurrence in `a + b` would put that character inside `b`.
   */
  lemma MissingLateChar(a: string, b: string, pat: string, idx: nat)
    requires idx < |pat| && |a| <= idx && pat[idx] !in b
    ensures !Contains(a + b, pat)
  {
    var s := a + b;
    forall i | 0 <= i && i + |pat| <= |s| ensures !OccursAt(s, pat, i) {
      assert s[i + idx] == b[i + idx - |a|];
      assert s[i..i + |pat|][idx] == s[i + idx];
    }
  }

  // ---------------------------------------------------------------------------
  // Split and join
  // ---------------------------------------------------------------------------

  /** JavaScript's `Array.prototype.join(sep)`. */
  function Join(parts: seq<string>, sep: string): string
    decreases |parts|
  {
    if |parts| == 0 then ""
    else if |parts| == 1 then parts[0]
    else parts[0] + sep + Join(parts[1..], sep)
  }

  /**
   JavaScript's `String.prototype.split(sep)` for a one-character separator: the pieces
   between separators, always at least one, which join back to the input.
   */
  function Split(s: string, sep: char): (r: seq<string>)
    decreases |s|
    ensures |r| > 0
    ensures Join(r, [sep]) == s
    ensures forall i :: 0 <= i < |r| ==> sep !in r[i]
  {
    if |s| == 0 then [""]
    else
      var rest := Split(s[1..], sep);
      if s[0] == sep then
        assert [""] + rest == [""] + rest[..];
        assert ([""] + rest)[1..] == rest;
        [""] + rest
      else
        var r := [[s[0]] + rest[0]] + rest[1..];
        assert r[1..] == rest[1..];
        assert Join(r, [sep]) == [s[0]] + Join(rest, [sep]);
        assert forall i :: 1 <= i < |r| ==> r[i] == rest[i];
        r
  }

  /** A join of separator-free pieces holds a separator exactly when there are several pieces. */
  lemma {:induction false} JoinSeparators(parts: seq<string>, sep: char)
    requires |parts| > 0
    requires forall i :: 0 <= i < |parts| ==> sep !in parts[i]
    ensures |parts| > 1 <==> sep in Join(parts, [sep])
    ensures |parts| > 1 ==> Join(parts, [sep])[|parts[0]|] == sep
    ensures forall k :: 0 <= k < |parts[0]| ==> Join(parts, [sep])[k] == parts[0][k]
  {
    if |parts| > 1 {
      assert Join(parts, [sep]) == parts[0] + [sep] + Join(parts[1..], [sep]);
    }
  }

  /** Joining separator-free pieces loses nothing: equal joins come from equal lists. */
  lemma {:induction false} JoinInjective(a: seq<string>, b: seq<string>, sep: char)
    requires |a| > 0 && |b| > 0
    requires forall i :: 0 <= i < |a| ==> sep !in a[i]
    requires forall i :: 0 <= i < |b| ==> sep !in b[i]
    requires Join(a, [sep]) == Join(b, [sep])
    ensures a == b
    decreases |a|
  {
    var s := Join(a, [sep]);
    JoinSeparators(a, sep);
    JoinSeparators(b, sep);
    if |a| > 1 {
      assert |b| > 1;
      assert |a[0]| == |b[0]| by {
        assert forall k :: 0 <= k < |a[0]| ==> s[k] != sep;
        assert forall k :: 0 <= k < |b[0]| ==> s[k] != sep;
      }
      assert a[0] == s[..|a[0]|] == b[0];
      assert s == a[0] + [sep] + Join(a[1..], [sep]);
      assert s == b[0] + [sep] + Join(b[1..], [sep]);
      assert Join(a[1..], [sep]) == s[|a[0]| + 1..] == Join(b[1..], [sep]);
      JoinInjective(a[1..], b[1..], sep);
      assert a == [a[0]] + a[1..];
      assert b == [b[0]] + b[1..];
    }
  }

  /** Splitting undoes joining when no piece contains the separator. */
  lemma SplitJoin(parts: seq<string>, sep: char)
    requires |parts| > 0
    requires forall i :: 0 <= i < |parts| ==> sep !in parts[i]
    ensures Split(Join(parts, [sep]), sep) == parts
  {
    var s := Join(parts, [sep]);
    JoinInjective(Split(s, sep), parts, sep);
  }

  // ---------------------------------------------------------------------------
  // Decimal numerals
  // ---------------------------------------------------------------------------

  function DigitChar(d: nat): (c: char)
    requires d < 10
    ensures IsDigit(c) && c as int - '0' as int == d
  {
    ('0' as int + d) as char
  }

  function DigitValue(c: char): nat
    requires IsDigit(c)
  {
    c as int - '0' as int
  }

  /** A natural number written in decimal, as JavaScript's `${n}` writes a safe integer. */
  function NatToString(n: nat): (r: string)
    ensures |r| > 0 && AllDigits(r)
    ensures |r| > 1 ==> r[0] != '0'
  {
    if n < 10 then [DigitChar(n)]
    else
      var r := NatToString(n / 10) + [DigitChar(n % 10)];
      assert r[0] == NatToString(n / 10)[0];
      r
  }

  /** The value of a run of decimal digits, as `parseInt` reads it. */
  function DecimalValue(s: string): nat
    requires AllDigits(s)
  {
    if |s| == 0 then 0
    else DecimalValue(s[..|s| - 1]) * 10 + DigitValue(s[|s| - 1])
  }

  /** Reading a written number gives the number back. */
  lemma {:induction false} DecimalRoundTrip(n: nat)
    ensures DecimalValue(NatToString(n)) == n
  {
    if n >= 10 {
      var s := NatToString(n);
      assert s[..|s| - 1] == NatToString(n / 10);
      DecimalRoundTrip(n / 10);
    }
  }
}

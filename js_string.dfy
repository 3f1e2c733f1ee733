/** The JavaScript string operations the source relies on: `split` with a
    one-character separator, `trim`, and `replace` with a string pattern
    (which replaces the FIRST occurrence only). */
module JsString {

  import opened Wrappers

  /** JavaScript truthiness of a string that may be `undefined` or `null`:
      only a present, non-empty string is truthy. */
  predicate Truthy(s: Option<string>) {
    s.Some? && s.value != ""
  }

  /** `s || fallback` on such a string. */
  function OrElse(s: Option<string>, fallback: string): (r: string)
    ensures Truthy(s) ==> r == s.value
    ensures !Truthy(s) ==> r == fallback
  {
    if Truthy(s) then s.value else fallback
  }

  /** `s || null`: an empty string becomes `null` too. */
  function OrNull(s: Option<string>): (r: Option<string>)
    ensures r.Some? <==> Truthy(s)
    ensures r.Some? ==> r == s
  {
    if Truthy(s) then s else None
  }

  /** WhiteSpace and LineTerminator code points of ECMAScript, the set that
      String.prototype.trim removes from both ends. */
  predicate IsSpace(c: char) {
    || c == '\t' || c == '\n' || c == '\U{000B}' || c == '\U{000C}' || c == '\r'
    || c == ' ' || c == '\U{00A0}' || c == '\U{1680}'
    || ('\U{2000}' <= c <= '\U{200A}')
    || c == '\U{2028}' || c == '\U{2029}' || c == '\U{202F}' || c == '\U{205F}'
    || c == '\U{3000}' || c == '\U{FEFF}'
  }

  predicate AllSpace(s: string) {
    forall i :: 0 <= i < |s| ==> IsSpace(s[i])
  }

  /** `s` neither starts nor ends with white space. */
  predicate Trimmed(s: string) {
    |s| == 0 || (!IsSpace(s[0]) && !IsSpace(s[|s| - 1]))
  }

  /** Drops leading white space: the result is the suffix of `s` after its
      longest all-space prefix. */
  function TrimStart(s: string): (r: string)
    ensures |r| <= |s| && r == s[|s| - |r|..]
    ensures AllSpace(s[..|s| - |r|])
    ensures |r| == 0 || !IsSpace(r[0])
    decreases |s|
  {
    if |s| > 0 && IsSpace(s[0]) then
      var r := TrimStart(s[1..]);
      assert s[|s| - |r|..] == s[1..][|s| - 1 - |r|..];
      assert s[..|s| - |r|] == [s[0]] + s[1..][..|s| - 1 - |r|];
      r
    else s
  }

  /** Drops trailing white space: the result is the prefix of `s` before its
      longest all-space suffix. */
  function TrimEnd(s: string): (r: string)
    ensures |r| <= |s| && r == s[..|r|]
    ensures AllSpace(s[|r|..])
    ensures |r| == 0 || !IsSpace(r[|r| - 1])
    decreases |s|
  {
    if |s| > 0 && IsSpace(s[|s| - 1]) then
      var r := TrimEnd(s[..|s| - 1]);
      assert s[..|r|] == s[..|s| - 1][..|r|];
      assert s[|r|..] == s[..|s| - 1][|r|..] + [s[|s| - 1]];
      r
    else s
  }

  /** String.prototype.trim. */
  function Trim(s: string): (r: string)
    ensures Trimmed(r)
  {
    var t := TrimStart(s);
    var r := TrimEnd(t);
    assert |r| > 0 ==> r[0] == t[0];
    r
  }

  /** `r` is the infix of `s` at `i`, with only white space before and after it. */
  ghost predicate FramedBySpace(s: string, r: string, i: int) {
    0 <= i <= i + |r| <= |s| && r == s[i..i + |r|] && AllSpace(s[..i]) && AllSpace(s[i + |r|..])
  }

  /** What trim promises: the result is the infix `s[i..j]` of the input that
      is left after removing all-space text from both ends, and it has no white
      space at either end. */
  lemma TrimIsInfix(s: string)
    ensures exists i :: FramedBySpace(s, Trim(s), i)
  {
    var t := TrimStart(s);
    var r := TrimEnd(t);
    assert r == Trim(s);
    InfixOfSuffix(s, t, r, |s| - |t|);
  }

  /** A prefix `r` of the suffix `t == s[i..]` sits at `i` in `s`, and what
      follows it in `s` is what follows it in `t`. */
  lemma InfixOfSuffix(s: string, t: string, r: string, i: int)
    requires 0 <= i <= |s| && t == s[i..] && AllSpace(s[..i])
    requires |r| <= |t| && r == t[..|r|] && AllSpace(t[|r|..])
    ensures exists k :: FramedBySpace(s, r, k)
  {
    assert s[i + |r|..] == t[|r|..];
    assert FramedBySpace(s, r, i);
  }

  /** Trimming twice is trimming once. */
  lemma {:induction false} TrimIdempotent(s: string)
    ensures Trim(Trim(s)) == Trim(s)
  {
    TrimIsInfix(s);
    TrimOfTrimmed(Trim(s));
  }

  /** A string with no white space at its ends is left alone. */
  lemma TrimOfTrimmed(s: string)
    requires Trimmed(s)
    ensures Trim(s) == s
  {
  }

  // ---------------------------------------------------------------------
  // String.prototype.replace with a string pattern

  predicate OccursAt(s: string, pat: string, i: nat) {
    i + |pat| <= |s| && s[i..i + |pat|] == pat
  }

  /** The first index at or after `from` where `pat` occurs, if any. */
  function IndexOfFrom(s: string, pat: string, from: nat): (r: Option<nat>)
    ensures r.Some? ==> from <= r.value && OccursAt(s, pat, r.value)
    ensures r.Some? ==> forall j :: from <= j < r.value ==> !OccursAt(s, pat, j)
    ensures r.None? ==> forall j :: from <= j ==> !OccursAt(s, pat, j)
    decreases |s| - from
  {
    if from + |pat| > |s| then None
    else if s[from..from + |pat|] == pat then Some(from)
    else IndexOfFrom(s, pat, from + 1)
  }

  /** String.prototype.indexOf. */
  function IndexOf(s: string, pat: string): Option<nat> {
    IndexOfFrom(s, pat, 0)
  }

  /** `s.replace(pat, rep)` for a string `pat`: only the first occurrence of
      `pat` is replaced; without an occurrence the string is unchanged. */
  function ReplaceFirst(s: string, pat: string, rep: string): (r: string)
  {
    match IndexOf(s, pat)
    case None => s
    case Some(k) => s[..k] + rep + s[k + |pat|..]
  }

  /** What `replace` with a string pattern does, stated without IndexOf:
      either `pat` does not occur and nothing changes, or the result is the
      text before the first occurrence, then `rep`, then everything after it
      untouched (later occurrences included). */
  lemma ReplaceFirstSpec(s: string, pat: string, rep: string)
    ensures (forall j: nat :: !OccursAt(s, pat, j)) ==> ReplaceFirst(s, pat, rep) == s
    ensures forall k: nat :: OccursAt(s, pat, k) && (forall j: nat :: j < k ==> !OccursAt(s, pat, j)) ==>
      ReplaceFirst(s, pat, rep) == s[..k] + rep + s[k + |pat|..]
  {
    match IndexOf(s, pat)
    case None =>
    case Some(k) =>
      forall k': nat | OccursAt(s, pat, k') && (forall j: nat :: j < k' ==> !OccursAt(s, pat, j))
        ensures k' == k
      {
        assert !(k' < k) && !(k < k');
      }
  }

  /** Replacing a one-character pattern: if `c` occurs, the result has the
      first `c` replaced, is unchanged before it, and keeps every later `c`. */
  lemma ReplaceFirstChar(s: string, c: char, rep: string)
    ensures c !in s ==> ReplaceFirst(s, [c], rep) == s
    ensures c in s ==> (exists k :: 0 <= k < |s| && s[k] == c && c !in s[..k]
                                && ReplaceFirst(s, [c], rep) == s[..k] + rep + s[k + 1..])
  {
    IndexOfChar(s, c);
    match IndexOf(s, [c])
    case None =>
    case Some(k) =>
      assert ReplaceFirst(s, [c], rep) == s[..k] + rep + s[k + 1..];
  }

  /** Looking for a one-character pattern finds the first copy of the
      character, and finds nothing exactly when it is absent. */
  lemma IndexOfChar(s: string, c: char)
    ensures IndexOf(s, [c]).Some? <==> c in s
    ensures IndexOf(s, [c]).Some? ==>
      var k := IndexOf(s, [c]).value; k < |s| && s[k] == c && c !in s[..k]
  {
    if c in s {
      var k :| 0 <= k < |s| && s[k] == c;
      CharOccursAt(s, c, k);
    }
    match IndexOf(s, [c])
    case None =>
    case Some(k) =>
      assert s[k..k + 1] == [c];
      assert s[k] == c;
      forall j | 0 <= j < k ensures s[..k][j] != c {
        assert !OccursAt(s, [c], j);
        assert s[j..j + 1] == [s[j]];
      }
  }

  lemma CharOccursAt(s: string, c: char, k: nat)
    requires k < |s| && s[k] == c
    ensures OccursAt(s, [c], k)
  {
    assert s[k..k + 1] == [c];
  }

  // ---------------------------------------------------------------------
  // String.prototype.split with a one-character separator

  /** `s.split(c)`: the maximal runs of text between the occurrences of `c`;
      the empty string splits into one empty part. */
  function Split(s: string, c: char): (parts: seq<string>)
    ensures |parts| >= 1
    ensures forall i :: 0 <= i < |parts| ==> c !in parts[i]
    decreases |s|
  {
    if s == [] then [""]
    else
      var rest := Split(s[1..], c);
      if s[0] == c then [""] + rest
      else [[s[0]] + rest[0]] + rest[1..]
  }

  /** `parts.join(c)`. */
  function Join(parts: seq<string>, c: char): string
    decreases |parts|
  {
    if |parts| == 0 then ""
    else if |parts| == 1 then parts[0]
    else parts[0] + [c] + Join(parts[1..], c)
  }

  lemma JoinThree(a: string, b: string, d: string, c: char)
    ensures Join([a, b, d], c) == a + [c] + b + [c] + d
  {
    var parts := [a, b, d];
    assert parts[1..] == [b, d];
    assert parts[1..][1..] == [d];
    assert Join([b, d], c) == b + [c] + d;
  }

  /** Joining two or more parts starts with the first part and a separator. */
  lemma JoinStartsWithFirst(parts: seq<string>, c: char)
    ensures |parts| >= 2 ==>
      |Join(parts, c)| > |parts[0]| && Join(parts, c)[..|parts[0]| + 1] == parts[0] + [c]
  {
    if |parts| >= 2 {
      var rest := Join(parts[1..], c);
      assert Join(parts, c) == parts[0] + [c] + rest;
      assert (parts[0] + [c] + rest)[..|parts[0]| + 1] == parts[0] + [c];
    }
  }

  /** Joining the parts of a split gives back the original string. */
  lemma {:induction false} JoinSplit(s: string, c: char)
    ensures Join(Split(s, c), c) == s
    decreases |s|
  {
    if s != [] {
      var rest := Split(s[1..], c);
      JoinSplit(s[1..], c);
      if s[0] == c {
        assert Split(s, c) == [""] + rest;
        assert ([""] + rest)[1..] == rest;
      } else {
        var parts := [[s[0]] + rest[0]] + rest[1..];
        assert Split(s, c) == parts;
        if |rest| == 1 {
          assert Join(parts, c) == [s[0]] + rest[0];
        } else {
          assert parts[1..] == rest[1..];
          assert Join(rest, c) == rest[0] + [c] + Join(rest[1..], c);
          assert Join(parts, c) == [s[0]] + rest[0] + [c] + Join(rest[1..], c);
        }
      }
    }
  }

  /** A string without the separator splits into itself alone. */
  lemma {:induction false} SplitNoSeparator(s: string, c: char)
    requires c !in s
    ensures Split(s, c) == [s]
    decreases |s|
  {
    if s != [] {
      assert c !in s[1..];
      SplitNoSeparator(s[1..], c);
      assert s[0] != c;
      assert [s[0]] + s[1..] == s;
    }
  }

  /** One step of `Split`, on a string known to be non-empty. */
  lemma SplitCons(s: string, c: char)
    requires s != []
    ensures var rest := Split(s[1..], c);
      Split(s, c) == if s[0] == c then [""] + rest else [[s[0]] + rest[0]] + rest[1..]
  {
  }

  /** Gluing a character onto the first of several parts. */
  lemma GlueFirst(x: char, ra: seq<string>, rb: seq<string>)
    requires |ra| >= 1
    ensures var rs := ra + rb; [[x] + rs[0]] + rs[1..] == [[x] + ra[0]] + ra[1..] + rb
  {
    var rs := ra + rb;
    assert rs[0] == ra[0];
    assert rs[1..] == ra[1..] + rb;
  }

  /** A separator between `a` and `b` separates their parts. */
  lemma {:induction false} SplitAppend(a: string, c: char, b: string)
    ensures Split(a + [c] + b, c) == Split(a, c) + Split(b, c)
    decreases |a|
  {
    var s := a + [c] + b;
    SplitCons(s, c);
    if a == [] {
      assert s[1..] == b;
    } else {
      assert s[0] == a[0];
      assert s[1..] == a[1..] + [c] + b;
      SplitAppend(a[1..], c, b);
      SplitCons(a, c);
      if a[0] != c {
        GlueFirst(a[0], Split(a[1..], c), Split(b, c));
      }
    }
  }

  /** Splitting a join of separator-free parts gives back the parts. */
  lemma {:induction false} SplitJoin(parts: seq<string>, c: char)
    requires |parts| >= 1
    requires forall i :: 0 <= i < |parts| ==> c !in parts[i]
    ensures Split(Join(parts, c), c) == parts
    decreases |parts|
  {
    if |parts| == 1 {
      SplitNoSeparator(parts[0], c);
    } else {
      SplitJoin(parts[1..], c);
      SplitNoSeparator(parts[0], c);
      SplitAppend(parts[0], c, Join(parts[1..], c));
      assert [parts[0]] + parts[1..] == parts;
    }
  }

  /** The last part of a split is a suffix of the string, preceded by the
      separator unless it is the whole string. */
  lemma {:induction false} SplitLastIsSuffix(s: string, c: char)
    ensures var p := Split(s, c); var last := p[|p| - 1];
      |last| <= |s| && s[|s| - |last|..] == last
      && (|last| < |s| ==> s[|s| - |last| - 1] == c)
    decreases |s|
  {
    if s != [] {
      var rest := Split(s[1..], c);
      SplitLastIsSuffix(s[1..], c);
      var last := rest[|rest| - 1];
      if s[0] != c && |rest| == 1 {
        JoinSplit(s[1..], c);
        SplitSingle(s, c);
      } else {
        SplitLastOfTail(s, c);
        if s[0] != c {
          TailLastShorter(s[1..], c);
        }
        SuffixShift(s, last, c);
      }
    }
  }

  /** With more than one part, the last part is shorter than the string. */
  lemma TailLastShorter(t: string, c: char)
    requires |Split(t, c)| > 1
    requires var p := Split(t, c); |p[|p| - 1]| <= |t| && t[|t| - |p[|p| - 1]|..] == p[|p| - 1]
    ensures var p := Split(t, c); |p[|p| - 1]| < |t|
  {
    var p := Split(t, c);
    if |p[|p| - 1]| == |t| {
      assert t == p[|p| - 1];
      SplitNoSeparator(t, c);
    }
  }

  /** When the tail splits in one part and `s` does not start with the
      separator, `s` splits in one part too, itself. */
  lemma SplitSingle(s: string, c: char)
    requires s != [] && s[0] != c && Split(s[1..], c) == [s[1..]]
    ensures Split(s, c) == [s]
  {
    assert [s[0]] + s[1..] == s;
  }

  /** Past a separator at the front, or with more than one part in the
      tail, the last part is the tail's last part. */
  lemma SplitLastOfTail(s: string, c: char)
    requires s != []
    requires s[0] == c || |Split(s[1..], c)| > 1
    ensures var p, rest := Split(s, c), Split(s[1..], c); p[|p| - 1] == rest[|rest| - 1]
  {
  }

  /** A suffix of `s[1..]` that follows a separator there, or that is all
      of `s[1..]` after a leading separator, follows a separator in `s`. */
  lemma SuffixShift(s: string, last: string, c: char)
    requires s != [] && |last| <= |s| - 1
    requires s[1..][|s| - 1 - |last|..] == last
    requires |last| < |s| - 1 ==> s[1..][|s| - 1 - |last| - 1] == c
    requires |last| == |s| - 1 ==> s[0] == c
    ensures s[|s| - |last|..] == last
    ensures |last| < |s| ==> s[|s| - |last| - 1] == c
  {
    assert s[1..][|s| - 1 - |last|..] == s[|s| - |last|..];
  }

  /** The last part of a split is the text after the last separator. */
  lemma LastPartAfterSeparator(prefix: string, c: char, last: string)
    requires c !in last
    ensures var p := Split(prefix + [c] + last, c); p[|p| - 1] == last
  {
    SplitAppend(prefix, c, last);
    SplitNoSeparator(last, c);
  }

  lemma JoinFive(parts: seq<string>, c: char)
    requires |parts| == 5
    ensures Join(parts, c) == parts[0] + [c] + parts[1] + [c] + parts[2] + [c] + parts[3] + [c] + parts[4]
  {
    assert parts[1..][1..] == parts[2..];
    assert parts[2..][1..] == parts[3..];
    assert parts[3..][1..] == [parts[4]];
    assert Join(parts[3..], c) == parts[3] + [c] + parts[4];
    assert Join(parts[2..], c) == parts[2] + [c] + Join(parts[3..], c);
    assert Join(parts[1..], c) == parts[1] + [c] + Join(parts[2..], c);
  }

  /** The first part of a split is a prefix of the string. */
  lemma {:induction false} SplitFirstIsPrefix(s: string, c: char)
    ensures Split(s, c)[0] <= s
    decreases |s|
  {
    if s != [] && s[0] != c {
      SplitFirstIsPrefix(s[1..], c);
      assert [s[0]] + s[1..] == s;
    }
  }

  /** Replacing a one-character pattern at its first occurrence `k`. */
  lemma ReplaceFirstCharAt(s: string, c: char, rep: string, k: nat)
    requires k < |s| && s[k] == c && c !in s[..k]
    ensures ReplaceFirst(s, [c], rep) == s[..k] + rep + s[k + 1..]
  {
    assert s[k..k + 1] == [c];
    assert OccursAt(s, [c], k);
    forall j: nat | j < k ensures !OccursAt(s, [c], j) {
      assert s[..k][j] == s[j];
    }
    ReplaceFirstSpec(s, [c], rep);
  }

  /** A pattern at the very start is the first occurrence. */
  lemma ReplaceFirstAtStart(pat: string, rest: string, rep: string)
    ensures ReplaceFirst(pat + rest, pat, rep) == rep + rest
  {
    var s := pat + rest;
    assert s[0..|pat|] == pat;
    assert s[|pat|..] == rest;
  }

  /** When `a` has no `c`, the `c` right after it is the first one. */
  lemma ReplaceFirstCharAfter(a: string, c: char, x: string, rep: string)
    requires c !in a
    ensures ReplaceFirst(a + [c] + x, [c], rep) == a + rep + x
  {
    var s := a + [c] + x;
    assert s[..|a|] == a;
    ReplaceFirstCharAt(s, c, rep, |a|);
    assert s[|a| + 1..] == x;
  }
}

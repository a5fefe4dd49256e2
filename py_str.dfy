/** The Python `str` operations that the report builder relies on:
    `find`, `split(sep)`, `sep.join`, `strip()` and `startswith(tuple)`.
    Strings are sequences of Unicode scalar values; lone surrogate code
    points, which a Python `str` may hold, cannot be represented. */
module PyStr {

  datatype Option<T> = None | Some(value: T)

  /** `sub` occurs in `s` starting at index `i`. */
  predicate OccursAt(s: string, sub: string, i: int)
  {
    0 <= i && i + |sub| <= |s| && s[i..i + |sub|] == sub
  }

  /** Python's `sub in s`. */
  predicate Contains(s: string, sub: string)
  {
    exists i :: 0 <= i <= |s| - |sub| && OccursAt(s, sub, i)
  }

  /** Python's `s.startswith(prefix)` for one prefix. */
  predicate StartsWith(s: string, prefix: string)
  {
    OccursAt(s, prefix, 0)
  }

  /** Python's `s.startswith(prefixes)` for a tuple: true when any of them is a prefix. */
  predicate StartsWithAny(s: string, prefixes: seq<string>)
  {
    exists k :: 0 <= k < |prefixes| && StartsWith(s, prefixes[k])
  }

  /** Python's `s.find(sub, start)`: the least index at or after `start` where `sub` occurs. */
  function FindFrom(s: string, sub: string, start: nat): (r: Option<nat>)
    requires start <= |s|
    ensures r.Some? ==> start <= r.value && OccursAt(s, sub, r.value)
    ensures r.Some? ==> forall j :: start <= j < r.value ==> !OccursAt(s, sub, j)
    ensures r.None? ==> forall j :: start <= j ==> !OccursAt(s, sub, j)
    decreases |s| - start
  {
    if OccursAt(s, sub, start) then Some(start)
    else if start == |s| then None
    else FindFrom(s, sub, start + 1)
  }

  /** Python's `s.find(sub)`, with `None` standing for -1. */
  function Find(s: string, sub: string): (r: Option<nat>)
    ensures r.None? <==> !Contains(s, sub)
    ensures r.Some? ==> OccursAt(s, sub, r.value) && forall j :: 0 <= j < r.value ==> !OccursAt(s, sub, j)
  {
    FindFrom(s, sub, 0)
  }

  /** Python's `s.split(sep)` for a non-empty separator, as CPython computes it:
      cut at the leftmost occurrence of `sep`, then continue after it. */
  function Split(s: string, sep: string): (parts: seq<string>)
    requires sep != ""
    ensures |parts| >= 1
    decreases |s|
  {
    match Find(s, sep)
    case None => [s]
    case Some(i) => [s[..i]] + Split(s[i + |sep|..], sep)
  }

  /** Python's `sep.join(parts)`. */
  function Join(parts: seq<string>, sep: string): string
  {
    if |parts| == 0 then ""
    else if |parts| == 1 then parts[0]
    else parts[0] + sep + Join(parts[1..], sep)
  }

  /** In `piece + sep`, the first occurrence of `sep` is the appended one. */
  predicate CutAtFirst(piece: string, sep: string)
  {
    forall j :: 0 <= j < |piece| ==> !OccursAt(piece + sep, sep, j)
  }

  /** A reference description of `s.split(sep)` that does not mention the
      algorithm: the pieces join back to `s`, the last piece holds no
      separator, and every other piece ends where the leftmost remaining
      separator begins. */
  predicate IsSplitOf(parts: seq<string>, s: string, sep: string)
  {
    && |parts| >= 1
    && Join(parts, sep) == s
    && !Contains(parts[|parts| - 1], sep)
    && forall k :: 0 <= k < |parts| - 1 ==> CutAtFirst(parts[k], sep)
  }

  /** An occurrence that ends inside `a` is an occurrence in `a + b`, and back. */
  lemma OccursInPrefix(a: string, b: string, sub: string, j: int)
    requires 0 <= j && j + |sub| <= |a|
    ensures OccursAt(a + b, sub, j) <==> OccursAt(a, sub, j)
  {
    assert (a + b)[j..j + |sub|] == a[j..j + |sub|];
  }

  /** An occurrence inside an occurrence is an occurrence in the whole. */
  lemma OccursTransitive(whole: string, part: string, sub: string, p: int, q: int)
    requires OccursAt(whole, part, p) && OccursAt(part, sub, q)
    ensures OccursAt(whole, sub, p + q)
  {
    assert whole[p..p + |part|] == part;
    forall k | 0 <= k < |sub|
      ensures whole[p + q + k] == sub[k]
    {
      assert sub[k] == part[q + k];
      assert part[q + k] == whole[p + q + k];
    }
    assert whole[p + q..p + q + |sub|] == sub;
  }

  lemma CutAtFirstHasNoSep(piece: string, sep: string)
    requires sep != ""
    requires CutAtFirst(piece, sep)
    ensures !Contains(piece, sep)
  {
    forall j | 0 <= j <= |piece| - |sep|
      ensures !OccursAt(piece, sep, j)
    {
      OccursInPrefix(piece, sep, sep, j);
    }
  }

  /** The piece cut off before the leftmost separator satisfies `CutAtFirst`. */
  lemma LeftmostCut(s: string, sep: string, i: nat)
    requires OccursAt(s, sep, i)
    requires forall j :: 0 <= j < i ==> !OccursAt(s, sep, j)
    ensures CutAtFirst(s[..i], sep)
  {
    assert s[..i] + sep == s[..i + |sep|];
    forall j | 0 <= j < i
      ensures !OccursAt(s[..i] + sep, sep, j)
    {
      OccursInPrefix(s[..i + |sep|], s[i + |sep|..], sep, j);
      assert s[..i + |sep|] + s[i + |sep|..] == s;
    }
  }

  lemma JoinCons(head: string, rest: seq<string>, sep: string)
    requires |rest| >= 1
    ensures Join([head] + rest, sep) == head + sep + Join(rest, sep)
  {
    assert ([head] + rest)[1..] == rest;
  }

  lemma {:induction false} SplitIsSplitOf(s: string, sep: string)
    requires sep != ""
    ensures IsSplitOf(Split(s, sep), s, sep)
    decreases |s|
  {
    match Find(s, sep)
    case None =>
    case Some(i) =>
      var rest := Split(s[i + |sep|..], sep);
      SplitIsSplitOf(s[i + |sep|..], sep);
      var parts := [s[..i]] + rest;
      assert parts == Split(s, sep);
      JoinCons(s[..i], rest, sep);
      assert s == s[..i] + s[i..i + |sep|] + s[i + |sep|..];
      LeftmostCut(s, sep, i);
      forall k | 0 <= k < |parts| - 1
        ensures CutAtFirst(parts[k], sep)
      {
        if k > 0 {
          assert parts[k] == rest[k - 1];
        }
      }
  }

  lemma {:induction false} SplitOfIsSplit(parts: seq<string>, s: string, sep: string)
    requires sep != ""
    requires IsSplitOf(parts, s, sep)
    ensures parts == Split(s, sep)
    decreases |parts|
  {
    if |parts| == 1 {
      assert Find(s, sep).None?;
    } else {
      var p := |parts[0]|;
      var tail := Join(parts[1..], sep);
      assert s == parts[0] + sep + tail;
      assert s[..p + |sep|] == parts[0] + sep;
      assert s[p + |sep|..] == tail;
      assert s[..p] == parts[0];
      forall j | 0 <= j < p
        ensures !OccursAt(s, sep, j)
      {
        assert CutAtFirst(parts[0], sep);
        OccursInPrefix(parts[0] + sep, tail, sep, j);
      }
      OccursInPrefix(parts[0] + sep, tail, sep, p);
      assert OccursAt(s, sep, p);
      assert Find(s, sep) == Some(p);
      forall k | 0 <= k < |parts[1..]| - 1
        ensures CutAtFirst(parts[1..][k], sep)
      {
        assert parts[1..][k] == parts[k + 1];
      }
      SplitOfIsSplit(parts[1..], tail, sep);
    }
  }

  /** `Split` agrees with the reference description, in both directions:
      it is the one and only decomposition with those properties. */
  lemma SplitCharacterized(parts: seq<string>, s: string, sep: string)
    requires sep != ""
    ensures parts == Split(s, sep) <==> IsSplitOf(parts, s, sep)
  {
    SplitIsSplitOf(s, sep);
    if IsSplitOf(parts, s, sep) {
      SplitOfIsSplit(parts, s, sep);
    }
  }

  /** Joining the pieces with the separator gives back the original string. */
  lemma JoinSplit(s: string, sep: string)
    requires sep != ""
    ensures Join(Split(s, sep), sep) == s
  {
    SplitIsSplitOf(s, sep);
  }

  /** No piece contains the separator. */
  lemma SplitPiecesHaveNoSep(s: string, sep: string)
    requires sep != ""
    ensures forall k :: 0 <= k < |Split(s, sep)| ==> !Contains(Split(s, sep)[k], sep)
  {
    var parts := Split(s, sep);
    SplitIsSplitOf(s, sep);
    forall k | 0 <= k < |parts|
      ensures !Contains(parts[k], sep)
    {
      if k < |parts| - 1 {
        CutAtFirstHasNoSep(parts[k], sep);
      }
    }
  }

  /** Three newlines split on a blank line: the cut is taken at the leftmost
      pair, so the third newline starts the second piece. */
  lemma SplitLeftmostExample()
    ensures Split("a\n\n\nb", "\n\n") == ["a", "\nb"]
  {
    var parts := ["a", "\nb"];
    assert parts[1..] == ["\nb"];
    assert Join(parts, "\n\n") == "a\n\n\nb";
    assert CutAtFirst("a", "\n\n") by {
      assert ("a" + "\n\n")[0..2][0] == 'a';
    }
    assert !Contains("\nb", "\n\n") by {
      assert ("\nb")[0..2][1] == 'b';
    }
    forall k | 0 <= k < |parts| - 1
      ensures CutAtFirst(parts[k], "\n\n")
    {
      assert parts[k] == "a";
    }
    SplitOfIsSplit(parts, "a\n\n\nb", "\n\n");
  }

  /** Python's `str.isspace()` for one character: the characters of Unicode
      category Zs or bidirectional class WS, B or S. */
  predicate IsSpace(c: char)
  {
    || ('\t' <= c <= '\r')
    || ('\U{1C}' <= c <= ' ')
    || c == '\U{85}' || c == '\U{A0}' || c == '\U{1680}'
    || ('\U{2000}' <= c <= '\U{200A}')
    || c == '\U{2028}' || c == '\U{2029}' || c == '\U{202F}' || c == '\U{205F}'
    || c == '\U{3000}'
  }

  predicate AllSpace(s: string)
  {
    forall i :: 0 <= i < |s| ==> IsSpace(s[i])
  }

  /** Python's `s.lstrip()`. */
  function StripLeading(s: string): (r: string)
    ensures |r| <= |s|
    decreases |s|
  {
    if s != "" && IsSpace(s[0]) then StripLeading(s[1..]) else s
  }

  /** Python's `s.rstrip()`. */
  function StripTrailing(s: string): (r: string)
    ensures |r| <= |s|
    decreases |s|
  {
    if s != "" && IsSpace(s[|s| - 1]) then StripTrailing(s[..|s| - 1]) else s
  }

  /** Python's `s.strip()`. */
  function Strip(s: string): (r: string)
    ensures |r| <= |s|
  {
    StripTrailing(StripLeading(s))
  }

  /** `lstrip` removes a whitespace prefix, and all of it. */
  lemma {:induction false} StripLeadingRemovesSpacePrefix(s: string)
    ensures var r := StripLeading(s);
      && |r| <= |s| && r == s[|s| - |r|..]
      && AllSpace(s[..|s| - |r|])
      && (r == "" || !IsSpace(r[0]))
    decreases |s|
  {
    if s != "" && IsSpace(s[0]) {
      StripLeadingRemovesSpacePrefix(s[1..]);
      var r := StripLeading(s);
      assert s[..|s| - |r|] == [s[0]] + s[1..][..|s| - 1 - |r|];
    }
  }

  /** `rstrip` removes a whitespace suffix, and all of it. */
  lemma {:induction false} StripTrailingRemovesSpaceSuffix(s: string)
    ensures var r := StripTrailing(s);
      && |r| <= |s| && r == s[..|r|]
      && AllSpace(s[|r|..])
      && (r == "" || !IsSpace(r[|r| - 1]))
    decreases |s|
  {
    if s != "" && IsSpace(s[|s| - 1]) {
      StripTrailingRemovesSpaceSuffix(s[..|s| - 1]);
      var r := StripTrailing(s);
      assert s[|r|..] == s[..|s| - 1][|r|..] + [s[|s| - 1]];
    }
  }

  /** `strip()` gives what is left of `s` once all of its leading and all of
      its trailing whitespace is removed: an infix of `s` with only whitespace
      before and after it, that neither starts nor ends with whitespace. */
  lemma StripIsTrimmedInfix(s: string)
    ensures var r := Strip(s);
      exists i :: && OccursAt(s, r, i)
                  && AllSpace(s[..i]) && AllSpace(s[i + |r|..])
                  && (r != "" ==> !IsSpace(r[0]) && !IsSpace(r[|r| - 1]))
  {
    var t := StripLeading(s);
    var r := StripTrailing(t);
    var i := |s| - |t|;
    StripLeadingRemovesSpacePrefix(s);
    StripTrailingRemovesSpaceSuffix(t);
    assert OccursAt(s, r, i) by {
      assert s[i..i + |r|] == r;
    }
    assert AllSpace(s[i + |r|..]) by {
      assert s[i + |r|..] == t[|r|..];
    }
    assert r != "" ==> !IsSpace(r[0]) by {
      if r != "" {
        assert r[0] == t[0];
      }
    }
  }

  /** `strip()` gives the empty string exactly when `s` is all whitespace. */
  lemma StripEmptyIffAllSpace(s: string)
    ensures Strip(s) == "" <==> AllSpace(s)
  {
    var t := StripLeading(s);
    StripLeadingRemovesSpacePrefix(s);
    StripTrailingRemovesSpaceSuffix(t);
    var i := |s| - |t|;
    assert s == s[..i] + t;
    if StripTrailing(t) == "" {
      assert t[0..] == t;
      AllSpaceConcat(s[..i], t);
    }
  }

  lemma AllSpaceConcat(a: string, b: string)
    requires AllSpace(a) && AllSpace(b)
    ensures AllSpace(a + b)
  {
    forall k | 0 <= k < |a + b|
      ensures IsSpace((a + b)[k])
    {
      if k >= |a| {
        assert (a + b)[k] == b[k - |a|];
      }
    }
  }
}

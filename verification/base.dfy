/** Shared vocabulary: optional values, order-preserving filtering, first-match
    lookup, and the string operations the application performs (ASCII
    lowercasing, the JavaScript `\s` class, `replace(/\s+/g, "-")`,
    `slice(0, n)` and `includes`). */
module Base {

  /** A JavaScript value that may be `null` or `undefined`. */
  datatype Option<T> = None | Some(value: T) {
    function GetOr(default: T): T {
      match this
      case Some(v) => v
      case None => default
    }
  }

  /** A call that either returns a value or throws an `Error` with a message. */
  datatype Result<T> = Ok(value: T) | Raised(message: string)

  /** What a template literal prints for a possibly-undefined string. */
  function JsText(s: Option<string>): string {
    if s.Some? then s.value else "undefined"
  }

  /** JavaScript truthiness of a possibly-absent string. */
  predicate Truthy(s: Option<string>) {
    s.Some? && s.value != ""
  }

  // ---------------------------------------------------------------------------
  // Array.prototype.filter

  /** The elements of `s` satisfying `p`, in their original order. */
  function Filter<T>(s: seq<T>, p: T -> bool): (r: seq<T>)
    ensures |r| <= |s|
    ensures forall i :: 0 <= i < |r| ==> r[i] in s && p(r[i])
    ensures forall i :: 0 <= i < |s| && p(s[i]) ==> s[i] in r
  {
    if |s| == 0 then []
    else if p(s[0]) then [s[0]] + Filter(s[1..], p)
    else Filter(s[1..], p)
  }

  /** Filtering distributes over concatenation: relative order is kept. */
  lemma {:induction false} FilterConcat<T>(a: seq<T>, b: seq<T>, p: T -> bool)
    ensures Filter(a + b, p) == Filter(a, p) + Filter(b, p)
  {
    if |a| == 0 {
      assert a + b == b;
    } else {
      assert (a + b)[1..] == a[1..] + b;
      FilterConcat(a[1..], b, p);
    }
  }

  /** A filter every element passes returns the sequence itself. */
  lemma {:induction false} FilterKeepsAll<T>(s: seq<T>, p: T -> bool)
    requires forall i :: 0 <= i < |s| ==> p(s[i])
    ensures Filter(s, p) == s
  {
    if |s| > 0 {
      FilterKeepsAll(s[1..], p);
    }
  }

  /** A filter no element passes returns the empty sequence. */
  lemma {:induction false} FilterDropsAll<T>(s: seq<T>, p: T -> bool)
    requires forall i :: 0 <= i < |s| ==> !p(s[i])
    ensures Filter(s, p) == []
  {
    if |s| > 0 {
      FilterDropsAll(s[1..], p);
    }
  }

  /** The elements passing `p` and those failing it account for all of `s`. */
  lemma {:induction false} FilterPartition<T>(s: seq<T>, p: T -> bool, q: T -> bool)
    requires forall i :: 0 <= i < |s| ==> (q(s[i]) <==> !p(s[i]))
    ensures |Filter(s, p)| + |Filter(s, q)| == |s|
  {
    if |s| > 0 {
      FilterPartition(s[1..], p, q);
    }
  }

  /** Two filters in a row are one filter on the conjunction. */
  lemma {:induction false} FilterTwice<T>(s: seq<T>, p: T -> bool, q: T -> bool, both: T -> bool)
    requires forall i :: 0 <= i < |s| ==> (both(s[i]) <==> p(s[i]) && q(s[i]))
    ensures Filter(Filter(s, p), q) == Filter(s, both)
  {
    if |s| > 0 {
      FilterTwice(s[1..], p, q, both);
    }
  }

  /** Filters by two predicates that agree on every element are equal. */
  lemma {:induction false} FilterSame<T>(s: seq<T>, p: T -> bool, q: T -> bool)
    requires forall i :: 0 <= i < |s| ==> (p(s[i]) <==> q(s[i]))
    ensures Filter(s, p) == Filter(s, q)
  {
    if |s| > 0 {
      FilterSame(s[1..], p, q);
    }
  }

  /** `s.map(f)`. */
  function Map<T, U>(s: seq<T>, f: T -> U): (r: seq<U>)
    ensures |r| == |s|
    ensures forall i :: 0 <= i < |s| ==> r[i] == f(s[i])
  {
    if |s| == 0 then [] else [f(s[0])] + Map(s[1..], f)
  }

  /** Rewriting the elements `p` selects by an `f` that keeps them selected,
      and then filtering by `p`, gives the rewritten selection in order. */
  lemma {:induction false} FilterRewritten<T>(s: seq<T>, t: seq<T>, p: T -> bool, f: T -> T)
    requires |t| == |s|
    requires forall i :: 0 <= i < |s| ==> t[i] == (if p(s[i]) then f(s[i]) else s[i])
    requires forall i :: 0 <= i < |s| ==> (p(f(s[i])) <==> p(s[i]))
    ensures Filter(t, p) == Map(Filter(s, p), f)
  {
    if |s| > 0 {
      assert forall i :: 0 <= i < |s| - 1 ==> t[1..][i] == t[i + 1] && s[1..][i] == s[i + 1];
      FilterRewritten(s[1..], t[1..], p, f);
      if p(s[0]) {
        assert Filter(s, p) == [s[0]] + Filter(s[1..], p);
        assert Map(Filter(s, p), f) == [f(s[0])] + Map(Filter(s[1..], p), f);
      }
    }
  }

  // ---------------------------------------------------------------------------
  // Array.prototype.find

  /** `i` is the position of the first element of `s` satisfying `p`. */
  ghost predicate IsFirst<T>(s: seq<T>, p: T -> bool, i: int) {
    0 <= i < |s| && p(s[i]) && forall j :: 0 <= j < i ==> !p(s[j])
  }

  /** The position of the first element satisfying `p`, if any. */
  function FindIndex<T>(s: seq<T>, p: T -> bool): (r: Option<nat>)
    ensures r.Some? ==> IsFirst(s, p, r.value)
    ensures r.None? ==> forall j :: 0 <= j < |s| ==> !p(s[j])
  {
    if |s| == 0 then None
    else if p(s[0]) then Some(0)
    else
      match FindIndex(s[1..], p)
      case None => None
      case Some(k) => Some(k + 1)
  }

  /** The first element satisfying `p`, or `undefined`. */
  function Find<T>(s: seq<T>, p: T -> bool): (r: Option<T>)
    ensures r.None? <==> forall j :: 0 <= j < |s| ==> !p(s[j])
    ensures r.Some? ==> exists i :: IsFirst(s, p, i) && s[i] == r.value
  {
    match FindIndex(s, p)
    case None => None
    case Some(i) => Some(s[i])
  }

  // ---------------------------------------------------------------------------
  // Characters and strings

  /** `toLowerCase` restricted to ASCII letters. */
  function LowerChar(c: char): char {
    if 'A' <= c <= 'Z' then (c as int - 'A' as int + 'a' as int) as char else c
  }

  function Lower(s: string): (r: string)
    ensures |r| == |s|
    ensures forall i :: 0 <= i < |s| ==> r[i] == LowerChar(s[i])
  {
    seq(|s|, i requires 0 <= i < |s| => LowerChar(s[i]))
  }

  /** Membership in the JavaScript regular-expression class `\s`. */
  predicate IsSpace(c: char) {
    || c == ' ' || c == '\t' || c == '\n' || c == '\r'
    || c == '\U{000B}' || c == '\U{000C}' || c == '\U{00A0}' || c == '\U{1680}'
    || ('\U{2000}' <= c <= '\U{200A}')
    || c == '\U{2028}' || c == '\U{2029}' || c == '\U{202F}' || c == '\U{205F}'
    || c == '\U{3000}' || c == '\U{FEFF}'
  }

  predicate NoSpace(s: string) {
    forall i :: 0 <= i < |s| ==> !IsSpace(s[i])
  }

  /** `s` with its leading run of whitespace removed. */
  function SkipSpaces(s: string): (r: string)
    ensures |r| <= |s| && r == s[|s| - |r|..]
    ensures |r| > 0 ==> !IsSpace(r[0])
    ensures forall i :: 0 <= i < |s| - |r| ==> IsSpace(s[i])
  {
    if |s| > 0 && IsSpace(s[0]) then
      var r := SkipSpaces(s[1..]);
      assert s[1..][|s| - 1 - |r|..] == s[|s| - |r|..];
      assert forall i :: 1 <= i < |s| - |r| ==> s[i] == s[1..][i - 1];
      r
    else s
  }

  /** `s.replace(/\s+/g, "-")`: every maximal whitespace run becomes one hyphen. */
  function Hyphenate(s: string): (r: string)
    ensures |r| <= |s|
    ensures NoSpace(r)
    decreases |s|
  {
    if |s| == 0 then []
    else if IsSpace(s[0]) then "-" + Hyphenate(SkipSpaces(s[1..]))
    else [s[0]] + Hyphenate(s[1..])
  }

  /** A string without whitespace is left as it is. */
  lemma {:induction false} HyphenateNoSpace(s: string)
    requires NoSpace(s)
    ensures Hyphenate(s) == s
  {
    if |s| > 0 {
      HyphenateNoSpace(s[1..]);
    }
  }

  /** Hyphenating twice is hyphenating once. */
  lemma HyphenateIdempotent(s: string)
    ensures Hyphenate(Hyphenate(s)) == Hyphenate(s)
  {
    HyphenateNoSpace(Hyphenate(s));
  }

  /** Removing the leading whitespace of `q + [c]`. */
  lemma {:induction false} SkipSpacesSnoc(q: string, c: char)
    ensures SkipSpaces(q) == [] ==> SkipSpaces(q + [c]) == SkipSpaces([c])
    ensures SkipSpaces(q) != [] ==> SkipSpaces(q + [c]) == SkipSpaces(q) + [c]
  {
    if |q| == 0 {
      assert q + [c] == [c];
    } else {
      assert (q + [c])[0] == q[0];
      assert (q + [c])[1..] == q[1..] + [c];
      if IsSpace(q[0]) {
        SkipSpacesSnoc(q[1..], c);
      }
    }
  }

  predicate EndsInSpace(p: string) {
    |p| > 0 && IsSpace(p[|p| - 1])
  }

  /** The output produced by reading one more input character `c`, given the
      output `h` so far and whether the input so far ended inside a run. */
  function HyphenAppend(h: string, inRun: bool, c: char): string {
    if !IsSpace(c) then h + [c]
    else if inRun then h
    else h + "-"
  }

  lemma HyphenAppendCons(a: char, h: string, inRun: bool, c: char)
    ensures HyphenAppend([a] + h, inRun, c) == [a] + HyphenAppend(h, inRun, c)
  {
    assert ([a] + h) + [c] == [a] + (h + [c]);
    assert ([a] + h) + "-" == [a] + (h + "-");
  }

  /** Hyphenation read left to right: appending one character to the input
      appends at most one character to the output. */
  lemma {:induction false} HyphenateSnoc(p: string, c: char)
    ensures Hyphenate(p + [c]) == HyphenAppend(Hyphenate(p), EndsInSpace(p), c)
    decreases |p|, 1
  {
    if |p| == 0 {
      HyphenateSnocEmpty(c);
    } else if !IsSpace(p[0]) {
      HyphenateSnocWord(p, c);
    } else {
      HyphenateSnocRun(p, c);
    }
  }

  lemma HyphenateSnocEmpty(c: char)
    ensures Hyphenate([] + [c]) == HyphenAppend(Hyphenate([]), EndsInSpace([]), c)
  {
    assert [] + [c] == [c];
    assert [c][1..] == [];
    if IsSpace(c) {
      assert SkipSpaces([c][1..]) == [];
    }
  }

  lemma {:induction false} HyphenateSnocWord(p: string, c: char)
    requires |p| > 0 && !IsSpace(p[0])
    ensures Hyphenate(p + [c]) == HyphenAppend(Hyphenate(p), EndsInSpace(p), c)
    decreases |p|, 0
  {
    var q := p[1..];
    assert (p + [c])[0] == p[0];
    assert (p + [c])[1..] == q + [c];
    HyphenateSnoc(q, c);
    HyphenAppendCons(p[0], Hyphenate(q), EndsInSpace(q), c);
    assert Hyphenate(p + [c]) == [p[0]] + Hyphenate(q + [c]);
    assert Hyphenate(p) == [p[0]] + Hyphenate(q);
    if |q| > 0 {
      assert p[|p| - 1] == q[|q| - 1];
    }
    assert EndsInSpace(p) == EndsInSpace(q);
  }

  /** One unfolding of `Hyphenate` on an input that starts with whitespace. */
  lemma HyphenateRunHead(s: string)
    requires |s| > 0 && IsSpace(s[0])
    ensures Hyphenate(s) == "-" + Hyphenate(SkipSpaces(s[1..]))
  {
  }

  lemma {:induction false} HyphenateSnocRun(p: string, c: char)
    requires |p| > 0 && IsSpace(p[0])
    ensures Hyphenate(p + [c]) == HyphenAppend(Hyphenate(p), EndsInSpace(p), c)
    decreases |p|, 0
  {
    var t := SkipSpaces(p[1..]);
    if t != [] {
      HyphenateSnoc(t, c);
      SnocRunTail(p, t, c);
    } else {
      assert AllSpace(p[1..]);
      SnocRunOnly(p, c);
    }
  }

  /** `p` is a whitespace run followed by the non-empty rest `t`. */
  lemma SnocRunTail(p: string, t: string, c: char)
    requires |p| > 0 && IsSpace(p[0]) && t == SkipSpaces(p[1..]) && t != []
    requires Hyphenate(t + [c]) == HyphenAppend(Hyphenate(t), EndsInSpace(t), c)
    ensures Hyphenate(p + [c]) == HyphenAppend(Hyphenate(p), EndsInSpace(p), c)
  {
    HyphenateRunHead(p);
    RunHeadSnoc(p, c);
    SkipSpacesSnoc(p[1..], c);
    assert t == p[|p| - |t|..];
    SuffixEndsInSpace(p, t);
    HyphenPrefixStep(Hyphenate(t), Hyphenate(t + [c]), EndsInSpace(t), c);
  }

  /** `p` is nothing but a whitespace run. */
  lemma SnocRunOnly(p: string, c: char)
    requires |p| > 0 && IsSpace(p[0]) && AllSpace(p[1..])
    ensures Hyphenate(p + [c]) == HyphenAppend(Hyphenate(p), EndsInSpace(p), c)
  {
    var q := p[1..];
    AllSpaceEndsInSpace(p);
    HyphenateRunHead(p);
    assert Hyphenate(p) == "-";
    SkipSpacesSnoc(q, c);
    RunHeadSnoc(p, c);
    var hc := Hyphenate(SkipSpaces([c]));
    assert Hyphenate(p + [c]) == "-" + hc;
    HyphenateAfterRun(c);
  }

  /** One unfolding of `Hyphenate` on `p + [c]` when `p` starts with
      whitespace. */
  lemma RunHeadSnoc(p: string, c: char)
    requires |p| > 0 && IsSpace(p[0])
    ensures Hyphenate(p + [c]) == "-" + Hyphenate(SkipSpaces(p[1..] + [c]))
  {
    assert (p + [c])[1..] == p[1..] + [c];
    HyphenateRunHead(p + [c]);
  }

  /** Putting a hyphen in front commutes with reading one more character. */
  lemma HyphenPrefixStep(h: string, hc: string, inRun: bool, c: char)
    requires hc == HyphenAppend(h, inRun, c)
    ensures "-" + hc == HyphenAppend("-" + h, inRun, c)
  {
    HyphenAppendCons('-', h, inRun, c);
  }

  /** A string and a non-empty suffix of it end in the same character. */
  lemma SuffixEndsInSpace(p: string, t: string)
    requires 0 < |t| <= |p| && t == p[|p| - |t|..]
    ensures EndsInSpace(p) == EndsInSpace(t)
  {
    assert t[|t| - 1] == p[|p| - 1];
  }

  /** Reading `c` right after a whitespace run that started the input. */
  lemma HyphenateAfterRun(c: char)
    ensures "-" + Hyphenate(SkipSpaces([c])) == HyphenAppend("-", true, c)
  {
    assert [c][1..] == [];
    if IsSpace(c) {
      assert SkipSpaces([c]) == SkipSpaces([c][1..]);
    } else {
      assert SkipSpaces([c]) == [c];
      assert Hyphenate([c]) == [c] + Hyphenate([]);
    }
  }

  /** Every character is whitespace. */
  predicate AllSpace(s: string) {
    forall i :: 0 <= i < |s| ==> IsSpace(s[i])
  }

  /** A whitespace character followed only by whitespace ends in whitespace. */
  lemma AllSpaceEndsInSpace(p: string)
    requires |p| > 0 && IsSpace(p[0]) && AllSpace(p[1..])
    ensures EndsInSpace(p)
  {
    if |p| > 1 {
      assert p[|p| - 1] == p[1..][|p| - 2];
    }
  }

  /** A single left-to-right pass with an "inside a whitespace run" flag, the
      way a regular-expression engine performs the global replace. */
  method HyphenateScan(s: string) returns (r: string)
    ensures r == Hyphenate(s)
    ensures NoSpace(r)
  {
    r := [];
    var inRun := false;
    var i := 0;
    while i < |s|
      invariant 0 <= i <= |s|
      invariant r == Hyphenate(s[..i])
      invariant inRun == EndsInSpace(s[..i])
    {
      HyphenateSnoc(s[..i], s[i]);
      assert s[..i + 1] == s[..i] + [s[i]];
      if IsSpace(s[i]) {
        if !inRun {
          r := r + "-";
        }
        inRun := true;
      } else {
        r := r + [s[i]];
        inRun := false;
      }
      i := i + 1;
    }
    assert s[..|s|] == s;
  }

  /** `s.slice(0, n)` on a string. */
  function Take(s: string, n: nat): (r: string)
    ensures |r| == if |s| <= n then |s| else n
    ensures r == s[..|r|]
  {
    if |s| <= n then s else s[..n]
  }

  predicate IsPrefix(p: string, s: string) {
    |p| <= |s| && s[..|p|] == p
  }

  /** `hay.includes(needle)` on strings. */
  predicate Contains(hay: string, needle: string)
    decreases |hay|
  {
    IsPrefix(needle, hay) || (|hay| > 0 && Contains(hay[1..], needle))
  }

  /** `needle` occurs in `hay` starting at position `i`. */
  ghost predicate OccursAt(hay: string, needle: string, i: int) {
    0 <= i && i + |needle| <= |hay| && hay[i..i + |needle|] == needle
  }

  /** `Contains` agrees with the textbook definition: some window of `hay`
      equals `needle`. */
  lemma {:induction false} ContainsIff(hay: string, needle: string)
    ensures Contains(hay, needle) <==> exists i :: OccursAt(hay, needle, i)
    decreases |hay|
  {
    if exists i :: OccursAt(hay, needle, i) {
      var i :| OccursAt(hay, needle, i);
      if i > 0 {
        assert OccursAt(hay[1..], needle, i - 1) by {
          assert hay[1..][i - 1..i - 1 + |needle|] == hay[i..i + |needle|];
        }
        ContainsIff(hay[1..], needle);
      }
    }
    if Contains(hay, needle) {
      if IsPrefix(needle, hay) {
        assert OccursAt(hay, needle, 0);
      } else {
        ContainsIff(hay[1..], needle);
        var i :| OccursAt(hay[1..], needle, i);
        assert hay[1..][i..i + |needle|] == hay[i + 1..i + 1 + |needle|];
        assert OccursAt(hay, needle, i + 1);
      }
    }
  }

  /** Every string includes the empty string. */
  lemma ContainsEmpty(hay: string)
    ensures Contains(hay, "")
  {
  }
}

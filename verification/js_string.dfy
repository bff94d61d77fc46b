/** The few JavaScript string and array built-ins the naming callbacks rely on,
    with the semantics ECMAScript gives them: `String.prototype.split` with a
    one-character separator, `Array.prototype.join`, `Array.prototype.slice`
    with non-negative bounds, `Array.prototype.map` and
    `String.prototype.startsWith`. */
module JsString {

  /** Number of occurrences of `d` in `s`. */
  function Occurrences(s: string, d: char): (n: nat)
    ensures n == 0 <==> d !in s
    ensures n <= |s|
  {
    if |s| == 0 then 0
    else (if s[0] == d then 1 else 0) + Occurrences(s[1..], d)
  }

  /** `s.split(d)`: the maximal `d`-free runs of `s`, in order. There is
      always at least one component: `"".split('/')` is `[""]`, and a leading,
      trailing or doubled separator yields empty components. */
  function Split(s: string, d: char): (parts: seq<string>)
    ensures |parts| == Occurrences(s, d) + 1
    ensures forall i :: 0 <= i < |parts| ==> d !in parts[i]
  {
    if |s| == 0 then [""]
    else
      var rest := Split(s[1..], d);
      if s[0] == d then [""] + rest
      else [[s[0]] + rest[0]] + rest[1..]
  }

  /** `parts.join(sep)`: the parts in order with `sep` between neighbours.
      No array gives an empty string and a single part is returned as is;
      `JoinSplit` and `SplitJoin` show that joining undoes `split`. */
  function Join(parts: seq<string>, sep: string): (r: string)
    ensures |parts| == 0 ==> r == ""
    ensures |parts| == 1 ==> r == parts[0]
  {
    if |parts| == 0 then ""
    else if |parts| == 1 then parts[0]
    else parts[0] + sep + Join(parts[1..], sep)
  }

  /** `xs.slice(start, end)` for non-negative bounds: both bounds are clamped
      to the length, and an empty range gives the empty array. */
  function Slice<T>(xs: seq<T>, start: nat, end: nat): (r: seq<T>)
    ensures start <= end && end <= |xs| ==> r == xs[start..end]
    ensures |r| == if end <= start || |xs| <= start then 0
                   else (if end <= |xs| then end else |xs|) - start
    ensures forall i :: 0 <= i < |r| ==> r[i] == xs[start + i]
  {
    var e := if end <= |xs| then end else |xs|;
    var b := if start <= e then start else e;
    xs[b..e]
  }

  /** `xs.map(f)`. */
  function MapSeq<A, B>(f: A -> B, xs: seq<A>): (r: seq<B>)
    ensures |r| == |xs|
    ensures forall i :: 0 <= i < |xs| ==> r[i] == f(xs[i])
  {
    if |xs| == 0 then [] else [f(xs[0])] + MapSeq(f, xs[1..])
  }

  /** `s.startsWith(p)`: `p` fits in `s` and agrees with it character by
      character. */
  predicate StartsWith(s: string, p: string): (b: bool)
    ensures b <==> |p| <= |s| && forall i :: 0 <= i < |p| ==> s[i] == p[i]
  {
    |p| <= |s| && s[..|p|] == p
  }

  /** `s.endsWith(p)`. */
  predicate EndsWith(s: string, p: string)
  {
    |p| <= |s| && s[|s| - |p|..] == p
  }

  /** Joining a non-empty tail: the head, the separator, then the rest. */
  lemma JoinCons(a: string, rest: seq<string>, sep: string)
    requires |rest| >= 1
    ensures Join([a] + rest, sep) == a + sep + Join(rest, sep)
  {
    assert ([a] + rest)[1..] == rest;
  }

  /** A component without the separator splits to itself. */
  lemma {:induction false} SplitNoSeparator(a: string, d: char)
    requires d !in a
    ensures Split(a, d) == [a]
  {
    if |a| > 0 {
      SplitNoSeparator(a[1..], d);
      assert [a[0]] + a[1..] == a;
    }
  }

  /** One step of `split`: the first character either closes an empty
      component or is prepended to the first component of the rest. */
  lemma SplitCons(c: char, t: string, d: char)
    ensures Split([c] + t, d) ==
      if c == d then [""] + Split(t, d)
      else [[c] + Split(t, d)[0]] + Split(t, d)[1..]
  {
    assert ([c] + t)[1..] == t;
  }

  /** Splitting distributes over a separator: the components of `p + d + q`
      are those of `p` followed by those of `q`. */
  lemma {:induction false} SplitAppend(p: string, q: string, d: char)
    ensures Split(p + [d] + q, d) == Split(p, d) + Split(q, d)
  {
    if |p| == 0 {
      assert p + [d] + q == [d] + q;
      SplitCons(d, q, d);
    } else {
      SplitAppend(p[1..], q, d);
      SplitAppendStep(p, q, d);
    }
  }

  /** The inductive step of `SplitAppend`, from the tail of `p` to `p`. */
  lemma SplitAppendStep(p: string, q: string, d: char)
    requires |p| > 0
    requires Split(p[1..] + [d] + q, d) == Split(p[1..], d) + Split(q, d)
    ensures Split(p + [d] + q, d) == Split(p, d) + Split(q, d)
  {
    var t := p[1..] + [d] + q;
    assert p + [d] + q == [p[0]] + t;
    assert p == [p[0]] + p[1..];
    SplitCons(p[0], t, d);
    SplitCons(p[0], p[1..], d);
    ConsDistributes(p[0], Split(p[1..], d), Split(q, d), d);
  }

  /** The shape `SplitCons` gives to a non-empty component list distributes
      over appending further components. */
  lemma ConsDistributes(c: char, sp: seq<string>, sq: seq<string>, d: char)
    requires |sp| > 0
    ensures (if c == d then [""] + (sp + sq) else [[c] + (sp + sq)[0]] + (sp + sq)[1..])
         == (if c == d then [""] + sp else [[c] + sp[0]] + sp[1..]) + sq
  {
    if c != d {
      assert (sp + sq)[0] == sp[0];
      assert (sp + sq)[1..] == sp[1..] + sq;
    }
  }

  /** Splitting then joining with the same separator gives the string back. */
  lemma {:induction false} JoinSplit(s: string, d: char)
    ensures Join(Split(s, d), [d]) == s
  {
    if |s| > 0 {
      var rest := Split(s[1..], d);
      JoinSplit(s[1..], d);
      if s[0] == d {
        JoinCons("", rest, [d]);
        assert s == [d] + s[1..];
      } else if |rest| == 1 {
        assert s == [s[0]] + s[1..];
      } else {
        var tail := rest[1..];
        JoinCons(rest[0], tail, [d]);
        assert rest == [rest[0]] + tail;
        JoinCons([s[0]] + rest[0], tail, [d]);
        assert s == [s[0]] + s[1..];
      }
    }
  }

  /** Joining separator-free components then splitting gives them back: the
      other half of the `split`/`join` round trip. */
  lemma {:induction false} SplitJoin(parts: seq<string>, d: char)
    requires |parts| >= 1
    requires forall i :: 0 <= i < |parts| ==> d !in parts[i]
    ensures Split(Join(parts, [d]), d) == parts
  {
    SplitNoSeparator(parts[0], d);
    if |parts| > 1 {
      var rest := parts[1..];
      JoinCons(parts[0], rest, [d]);
      assert [parts[0]] + rest == parts;
      SplitJoin(rest, d);
      SplitAppend(parts[0], Join(rest, [d]), d);
    }
  }

  /** Joining two non-empty lists is joining each and putting a separator
      between the two results. */
  lemma {:induction false} JoinAppend(xs: seq<string>, ys: seq<string>, sep: string)
    requires |xs| >= 1 && |ys| >= 1
    ensures Join(xs + ys, sep) == Join(xs, sep) + sep + Join(ys, sep)
  {
    if |xs| == 1 {
      JoinCons(xs[0], ys, sep);
      assert xs + ys == [xs[0]] + ys;
    } else {
      var tail := xs[1..];
      JoinAppend(tail, ys, sep);
      assert xs + ys == [xs[0]] + (tail + ys);
      JoinCons(xs[0], tail + ys, sep);
      JoinCons(xs[0], tail, sep);
      assert xs == [xs[0]] + tail;
    }
  }
}

/** The two callbacks of `vite.config.ts` with behaviour of their own: the
    router's `getRouteName`, which turns the pascal-case route name into a
    kebab-case one, and the component resolver that maps `VueApexCharts` to
    its package. The pascal-case route name itself comes from the router
    library and is an input here. */
module RouteNaming {
  import opened Outcomes

  /** `[A-Z]`. */
  predicate IsUpper(c: char)
  {
    'A' <= c <= 'Z'
  }

  /** `[a-z\d]`. */
  predicate IsLowerOrDigit(c: char)
  {
    'a' <= c <= 'z' || '0' <= c <= '9'
  }

  /** The regex `([a-z\d])([A-Z])` matches at `i - 1`, so a hyphen goes in
      front of `s[i]`. */
  predicate IsBoundary(s: string, i: int)
  {
    0 < i < |s| && IsLowerOrDigit(s[i - 1]) && IsUpper(s[i])
  }

  /** Number of positions `i` with `IsBoundary(s, i)`. */
  function CountBoundaries(s: string): nat
  {
    if |s| < 2 then 0
    else (if IsBoundary(s, 1) then 1 else 0) + CountBoundaries(s[1..])
  }

  /** `toLowerCase` on one character, for ASCII letters. */
  function LowerChar(c: char): char
  {
    if IsUpper(c) then (c as int - 'A' as int + 'a' as int) as char else c
  }

  /** `s.toLowerCase()`, restricted to ASCII: every `A`-`Z` becomes its
      lower-case letter and nothing else changes. */
  function ToLowerCase(s: string): (r: string)
    ensures |r| == |s|
    ensures forall i :: 0 <= i < |s| ==> r[i] == LowerChar(s[i])
    ensures forall i :: 0 <= i < |r| ==> !IsUpper(r[i])
  {
    if |s| == 0 then [] else [LowerChar(s[0])] + ToLowerCase(s[1..])
  }

  /** `s.replace(/([a-z\d])([A-Z])/g, '$1-$2')` as the regex engine runs it:
      scan from the left, and on a match emit both characters with `-`
      between them and resume the scan after the match. */
  function RegexHyphenate(s: string): (r: string)
    ensures |r| == |s| + CountBoundaries(s)
    ensures |s| > 0 ==> |r| > 0 && r[0] == s[0]
  {
    if |s| < 2 then s
    else if IsLowerOrDigit(s[0]) && IsUpper(s[1]) then
      // The matched upper-case letter cannot start the next match.
      assert s[1..][1..] == s[2..];
      [s[0], '-', s[1]] + RegexHyphenate(s[2..])
    else [s[0]] + RegexHyphenate(s[1..])
  }

  /** The same rewrite, one position at a time: copy each character, and put
      a `-` after it when the next position is a boundary. */
  function Hyphenate(s: string): (r: string)
    ensures |r| == |s| + CountBoundaries(s)
    ensures |s| > 0 ==> |r| > 0 && r[0] == s[0]
  {
    if |s| < 2 then s
    else if IsBoundary(s, 1) then [s[0], '-'] + Hyphenate(s[1..])
    else [s[0]] + Hyphenate(s[1..])
  }

  /** `getRouteName`: hyphenate the pascal-case route name, then lower-case
      it. */
  function RouteName(pascal: string): (r: string)
    ensures forall i :: 0 <= i < |r| ==> !IsUpper(r[i])
  {
    ToLowerCase(RegexHyphenate(pascal))
  }

  /** Package and export the component resolver reports for a component. */
  datatype ComponentImport = ComponentImport(name: string, from: string, alias: string)

  /** The resolver passed to the components plugin: `VueApexCharts` is the
      default export of `vue3-apexcharts`, imported under its own name; every
      other component is left to the other resolvers (`undefined`). */
  function ResolveComponent(componentName: string): (r: Option<ComponentImport>)
    ensures r.Some? <==> componentName == "VueApexCharts"
    ensures r.Some? ==> r.value.alias == componentName
    ensures r.Some? ==> r.value.name == "default" && r.value.from == "vue3-apexcharts"
  {
    if componentName == "VueApexCharts"
    then Some(ComponentImport("default", "vue3-apexcharts", "VueApexCharts"))
    else None
  }
}

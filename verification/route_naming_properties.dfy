/** What `getRouteName` guarantees: the left-to-right regex rewrite is a
    plain position-wise insertion of hyphens at lower/digit-then-upper
    boundaries, the result is lower-case, only those hyphens are added, and
    the transform is idempotent. */
module RouteNamingProperties {
  import opened JsString
  import opened RouteNaming

  /** `s` with every `-` removed. */
  function RemoveHyphens(s: string): string
  {
    if |s| == 0 then []
    else (if s[0] == '-' then [] else [s[0]]) + RemoveHyphens(s[1..])
  }

  /** Global, non-overlapping matching equals position-wise insertion: the
      second character of a match is upper-case, so it can never start the
      next match, and resuming after it skips nothing. */
  lemma {:induction false} RegexIsPositionwise(s: string)
    ensures RegexHyphenate(s) == Hyphenate(s)
  {
    if |s| >= 2 {
      if IsBoundary(s, 1) {
        RegexIsPositionwise(s[2..]);
        var t := s[1..];
        assert t[1..] == s[2..];
        if |t| >= 2 {
          assert !IsBoundary(t, 1);
        }
        assert Hyphenate(t) == [s[1]] + Hyphenate(s[2..]);
      } else {
        RegexIsPositionwise(s[1..]);
      }
    }
  }

  /** Hyphenating one more character: a `-` goes in front of `c` exactly
      when the character before it is in `[a-z0-9]` and `c` is in `[A-Z]`;
      nothing earlier changes. */
  lemma {:induction false} HyphenateSnoc(s: string, c: char)
    ensures Hyphenate(s + [c]) ==
      Hyphenate(s) + (if IsBoundary(s + [c], |s|) then "-" else "") + [c]
  {
    var sc := s + [c];
    if |s| == 0 {
      assert sc == [c];
    } else if |s| == 1 {
      assert sc == [s[0], c];
      assert sc[1..] == [c];
    } else {
      assert sc[1..] == s[1..] + [c];
      HyphenateSnoc(s[1..], c);
      assert IsBoundary(sc, 1) == IsBoundary(s, 1);
      assert IsBoundary(sc, |s|) == IsBoundary(s[1..] + [c], |s[1..]|);
    }
  }

  /** One step of `Hyphenate`: the first character, a hyphen when position 1
      is a boundary, then the rest hyphenated. */
  lemma HyphenateUnfold(s: string)
    requires |s| >= 2
    ensures Hyphenate(s) == [s[0]] + (if IsBoundary(s, 1) then "-" else "") + Hyphenate(s[1..])
  {
  }

  /** The added characters are all hyphens: the output has exactly one more
      `-` per boundary. */
  lemma {:induction false} HyphenateCountsHyphens(s: string)
    ensures Occurrences(Hyphenate(s), '-') == Occurrences(s, '-') + CountBoundaries(s)
  {
    if |s| >= 2 {
      HyphenateCountsHyphens(s[1..]);
      var mid: string := if IsBoundary(s, 1) then "-" else "";
      HyphenateUnfold(s);
      OccurrencesAppend([s[0]] + mid, Hyphenate(s[1..]));
      OccurrencesAppend([s[0]], mid);
      OccurrencesAppend([s[0]], s[1..]);
      assert s == [s[0]] + s[1..];
    }
  }

  /** Removing every `-` from the output leaves the input with its own
      hyphens removed. */
  lemma {:induction false} HyphenateRemovesToInput(s: string)
    ensures RemoveHyphens(Hyphenate(s)) == RemoveHyphens(s)
  {
    if |s| >= 2 {
      HyphenateRemovesToInput(s[1..]);
      var mid: string := if IsBoundary(s, 1) then "-" else "";
      HyphenateUnfold(s);
      RemoveAppend([s[0]] + mid, Hyphenate(s[1..]));
      RemoveAppend([s[0]], mid);
      assert RemoveHyphens(mid) == [];
      RemoveAppend([s[0]], s[1..]);
      assert s == [s[0]] + s[1..];
    }
  }

  /** `Occurrences` distributes over concatenation. */
  lemma {:induction false} OccurrencesAppend(a: string, b: string)
    ensures Occurrences(a + b, '-') == Occurrences(a, '-') + Occurrences(b, '-')
  {
    if |a| > 0 {
      OccurrencesAppend(a[1..], b);
      assert (a + b)[1..] == a[1..] + b;
    } else {
      assert a + b == b;
    }
  }

  /** `RemoveHyphens` distributes over concatenation. */
  lemma {:induction false} RemoveAppend(a: string, b: string)
    ensures RemoveHyphens(a + b) == RemoveHyphens(a) + RemoveHyphens(b)
  {
    if |a| > 0 {
      RemoveAppend(a[1..], b);
      assert (a + b)[1..] == a[1..] + b;
    } else {
      assert a + b == b;
    }
  }

  /** Lower-casing keeps hyphens where they are and in number. */
  lemma {:induction false} LowerKeepsHyphens(s: string)
    ensures Occurrences(ToLowerCase(s), '-') == Occurrences(s, '-')
    ensures RemoveHyphens(ToLowerCase(s)) == ToLowerCase(RemoveHyphens(s))
  {
    if |s| > 0 {
      LowerKeepsHyphens(s[1..]);
      var l := ToLowerCase(s);
      assert l == [LowerChar(s[0])] + ToLowerCase(s[1..]);
      OccurrencesAppend([LowerChar(s[0])], ToLowerCase(s[1..]));
      RemoveAppend([LowerChar(s[0])], ToLowerCase(s[1..]));
      assert s == [s[0]] + s[1..];
      OccurrencesAppend([s[0]], s[1..]);
      RemoveAppend([s[0]], s[1..]);
      var rest := RemoveHyphens(s[1..]);
      if s[0] != '-' {
        assert ToLowerCase([s[0]] + rest) == [LowerChar(s[0])] + ToLowerCase(rest) by {
          assert ([s[0]] + rest)[1..] == rest;
        }
      }
    }
  }

  /** `getRouteName` adds one `-` per boundary and nothing else: deleting
      hyphens from its output gives the lower-cased input with its own
      hyphens deleted, and the length grows by the number of boundaries. */
  lemma RouteNameAddsOnlyBoundaryHyphens(pascal: string)
    ensures |RouteName(pascal)| == |pascal| + CountBoundaries(pascal)
    ensures Occurrences(RouteName(pascal), '-') == Occurrences(pascal, '-') + CountBoundaries(pascal)
    ensures RemoveHyphens(RouteName(pascal)) == ToLowerCase(RemoveHyphens(pascal))
  {
    RegexIsPositionwise(pascal);
    HyphenateCountsHyphens(pascal);
    HyphenateRemovesToInput(pascal);
    LowerKeepsHyphens(Hyphenate(pascal));
  }

  /** For a pascal-case name without hyphens of its own, deleting the
      hyphens from the route name gives back the lower-cased input. */
  lemma RouteNameUnhyphenates(pascal: string)
    requires '-' !in pascal
    ensures RemoveHyphens(RouteName(pascal)) == ToLowerCase(pascal)
  {
    RouteNameAddsOnlyBoundaryHyphens(pascal);
    NoHyphensUnchanged(pascal);
  }

  /** Removing hyphens from a string without any is the identity. */
  lemma {:induction false} NoHyphensUnchanged(s: string)
    requires '-' !in s
    ensures RemoveHyphens(s) == s
  {
    if |s| > 0 {
      NoHyphensUnchanged(s[1..]);
      assert s == [s[0]] + s[1..];
    }
  }

  /** Without boundaries the rewrite changes nothing. */
  lemma {:induction false} HyphenateWithoutBoundaries(s: string)
    requires CountBoundaries(s) == 0
    ensures Hyphenate(s) == s
  {
    if |s| >= 2 {
      HyphenateWithoutBoundaries(s[1..]);
      assert s == [s[0]] + s[1..];
    }
  }

  /** A name with no lower/digit-then-upper boundary is only lower-cased. */
  lemma RouteNameWithoutBoundaries(pascal: string)
    requires CountBoundaries(pascal) == 0
    ensures RouteName(pascal) == ToLowerCase(pascal)
  {
    RegexIsPositionwise(pascal);
    HyphenateWithoutBoundaries(pascal);
  }

  /** A string with no upper-case letter has no boundary. */
  lemma {:induction false} NoUpperNoBoundaries(s: string)
    requires forall i :: 0 <= i < |s| ==> !IsUpper(s[i])
    ensures CountBoundaries(s) == 0
  {
    if |s| >= 2 {
      assert !IsUpper(s[1]);
      NoUpperNoBoundaries(s[1..]);
    }
  }

  /** Lower-casing a string with no upper-case letter changes nothing. */
  lemma LowerOfLower(s: string)
    requires forall i :: 0 <= i < |s| ==> !IsUpper(s[i])
    ensures ToLowerCase(s) == s
  {
  }

  /** `getRouteName` is idempotent: its output has no upper-case letter left
      for the regex to match or for lower-casing to change. */
  lemma RouteNameIdempotent(pascal: string)
    ensures RouteName(RouteName(pascal)) == RouteName(pascal)
  {
    var r := RouteName(pascal);
    NoUpperNoBoundaries(r);
    RouteNameWithoutBoundaries(r);
    LowerOfLower(r);
  }

  /** A hyphen goes between two words. */
  lemma RouteNameSplitsWords()
    ensures RouteName("UserList") == "user-list"
  {
    HyphenateUserList();
    LowerUserList();
  }

  /** The regex step of `RouteNameSplitsWords`. */
  lemma HyphenateUserList()
    ensures RegexHyphenate("UserList") == "User-List"
  {
    assert RegexHyphenate("List") == "List";
    assert RegexHyphenate("rList") == "r-List";
    assert RegexHyphenate("serList") == "ser-List";
  }

  /** The lower-casing step of `RouteNameSplitsWords`. */
  lemma LowerUserList()
    ensures ToLowerCase("User-List") == "user-list"
  {
    assert ToLowerCase("List") == "list";
  }

  /** A digit also opens a boundary. */
  lemma RouteNameAfterDigit()
    ensures RouteName("V2Api") == "v2-api"
  {
    HyphenateV2Api();
    assert ToLowerCase("V2-Api") == "v2-api";
  }

  /** The regex step of `RouteNameAfterDigit`. */
  lemma HyphenateV2Api()
    ensures RegexHyphenate("V2Api") == "V2-Api"
  {
    assert RegexHyphenate("2Api") == "2-Api";
  }

  /** A run of capitals gets no hyphen. */
  lemma RouteNameKeepsCapitalRuns()
    ensures RouteName("APIDocs") == "apidocs"
  {
    HyphenateApiDocs();
    assert ToLowerCase("APIDocs") == "apidocs";
  }

  /** The regex step of `RouteNameKeepsCapitalRuns`. */
  lemma HyphenateApiDocs()
    ensures RegexHyphenate("APIDocs") == "APIDocs"
  {
    assert RegexHyphenate("Docs") == "Docs";
  }
}

/** The email format check shared by the registration and login forms: the
    regular expression ^[a-zA-Z0-9._%+-]+@[a-zA-Z0-9.-]+\.[a-zA-Z]{2,}$
    written out as a structural predicate. */
module Email {
  import opened Text

  /** `s` splits as local part, '@' at `at`, domain, '.' at `dot`, and a
      top-level part of at least two ASCII letters that ends the string. */
  predicate SplitsAt(s: string, at: int, dot: int) {
    1 <= at && at + 2 <= dot && dot + 3 <= |s| &&
    All(s[..at], LocalPart) && s[at] == '@' &&
    All(s[at + 1..dot], DomainPart) && s[dot] == '.' &&
    All(s[dot + 1..], Letter)
  }

  /** What the regular expression means: some split of `s` fits its parts. */
  ghost predicate MatchesPattern(s: string) {
    exists at, dot :: SplitsAt(s, at, dot)
  }

  /** The check as computed: only the first '@' and the last '.' can be the
      separators, because the local part has no '@' and the top-level part
      has no '.'. */
  predicate IsValid(s: string): (ok: bool)
    ensures ok <==> MatchesPattern(s)
  {
    ValidIffMatchesPattern(s);
    SplitsAt(s, IndexOf(s, '@'), LastIndexOf(s, '.'))
  }

  const InvalidEmailText: string := "Invalid email address"

  /** The error flag both forms put on their email field: only a non-empty,
      invalid address is flagged, so an empty field never is. */
  function FieldError(s: string): (flagged: bool)
    ensures flagged <==> s != "" && !MatchesPattern(s)
  {
    !IsValid(s) && |s| > 0
  }

  /** The helper text under the email field is shown exactly when the field is flagged. */
  function HelperText(s: string): (text: string)
    ensures text == "" || text == InvalidEmailText
    ensures text != "" <==> s != "" && !MatchesPattern(s)
  {
    if FieldError(s) then InvalidEmailText else ""
  }

  /** The split at the first '@' and the last '.' fits exactly when some
      split fits, so the computed check accepts exactly the strings the
      pattern matches. */
  lemma ValidIffMatchesPattern(s: string)
    ensures SplitsAt(s, IndexOf(s, '@'), LastIndexOf(s, '.')) <==> MatchesPattern(s)
  {
    if MatchesPattern(s) {
      var at, dot :| SplitsAt(s, at, dot);
      SeparatorsAreUnique(s, at, dot);
    }
  }

  /** Any split the pattern admits uses the first '@' and the last '.'. */
  lemma SeparatorsAreUnique(s: string, at: int, dot: int)
    requires SplitsAt(s, at, dot)
    ensures IndexOf(s, '@') == at && LastIndexOf(s, '.') == dot
  {
    assert '@' !in s[..at] by {
      forall i | 0 <= i < at ensures s[..at][i] != '@' {
        assert InClass(s[..at][i], LocalPart);
      }
    }
    assert s[at] in s;
    assert '.' !in s[dot + 1..] by {
      forall j | dot < j < |s| ensures s[j] != '.' {
        assert InClass(s[dot + 1..][j - dot - 1], Letter);
      }
    }
    assert s[dot] in s;
  }

  /** An accepted address holds exactly one '@'. */
  lemma ValidHasOneAt(s: string)
    requires IsValid(s)
    ensures multiset(s)['@'] == 1
  {
    SplitHasOneAt(s, IndexOf(s, '@'), LastIndexOf(s, '.'));
  }

  /** A string that some split of the pattern fits holds exactly one '@'. */
  lemma SplitHasOneAt(s: string, at: int, dot: int)
    requires SplitsAt(s, at, dot)
    ensures multiset(s)['@'] == 1
  {
    var local, domain, top := s[..at], s[at + 1..dot], s[dot + 1..];
    assert s == local + [s[at]] + domain + [s[dot]] + top;
    assert '@' !in local by {
      forall i | 0 <= i < |local| ensures local[i] != '@' {
        assert InClass(local[i], LocalPart);
      }
    }
    assert '@' !in domain by {
      forall i | 0 <= i < |domain| ensures domain[i] != '@' {
        assert InClass(domain[i], DomainPart);
      }
    }
    assert '@' !in top by {
      forall i | 0 <= i < |top| ensures top[i] != '@' {
        assert InClass(top[i], Letter);
      }
    }
    calc {
      multiset(s)['@'];
      multiset(local)['@'] + multiset([s[at]])['@'] + multiset(domain)['@']
        + multiset([s[dot]])['@'] + multiset(top)['@'];
      0 + 1 + 0 + 0 + 0;
    }
  }

  /** An accepted address is not empty, has a non-empty local part and
      domain, and the text after its last '.' is two or more ASCII letters. */
  lemma ValidShape(s: string)
    requires IsValid(s)
    ensures s != []
    ensures var at, dot := IndexOf(s, '@'), LastIndexOf(s, '.');
      0 < at && at + 1 < dot && '.' !in s[dot + 1..] &&
      |s| - (dot + 1) >= 2 && forall j :: dot < j < |s| ==> IsLetter(s[j])
  {
    var dot := LastIndexOf(s, '.');
    forall j | dot < j < |s| ensures IsLetter(s[j]) {
      assert InClass(s[dot + 1..][j - dot - 1], Letter);
    }
  }

  /** The empty field is never a valid address. */
  lemma EmptyIsInvalid()
    ensures !IsValid("")
    ensures !MatchesPattern("")
  {
  }

  /** An address the pattern accepts, shown through the reference reading. */
  lemma AcceptedExample()
    ensures IsValid("j.d+f@m-x.org")
  {
    var s := "j.d+f@m-x.org";
    assert s[..5] == "j.d+f" && s[6..9] == "m-x" && s[10..] == "org";
    assert SplitsAt(s, 5, 9);
  }

  /** A one-letter top-level part is rejected: a '.' second to last is
      never followed by the two letters the pattern needs. */
  lemma ShortTopLevelRejected(s: string)
    requires |s| >= 2 && s[|s| - 2] == '.'
    ensures !IsValid(s)
  {
    LastIndexOfAtLeast(s, '.', |s| - 2);
  }

  lemma ShortTopLevelExample()
    ensures !IsValid("jo@ex.c")
  {
    ShortTopLevelRejected("jo@ex.c");
  }

  /** The domain cannot begin with a second '@'. */
  lemma DoubleAtRejected(s: string, at: int)
    requires 0 <= at && at + 1 < |s| && s[at + 1] == '@' && IndexOf(s, '@') == at
    ensures !IsValid(s)
  {
    var dot := LastIndexOf(s, '.');
    if at + 2 <= dot {
      assert s[at + 1..dot][0] == '@';
    }
  }

  lemma SecondAtRejected()
    ensures !IsValid("jo@@ex.org")
  {
    var s := "jo@@ex.org";
    IndexOfIs(s, '@', 2);
    DoubleAtRejected(s, 2);
  }

  /** An empty local part is rejected: an address starting with '@'. */
  lemma EmptyLocalPartRejected(s: string)
    requires |s| > 0 && s[0] == '@'
    ensures !IsValid(s)
  {
    assert IndexOf(s, '@') == 0;
  }

  lemma EmptyLocalPartExample()
    ensures !IsValid("@ex.org")
  {
    EmptyLocalPartRejected("@ex.org");
  }
}

/** The sign-in box of src/components/LoginBox.tsx: the student-address
    recogniser `isVitEmail` and the submit handler.

    The recogniser tests `/^[a-zA-Z]+\.[a-zA-Z]+\d{4}@vitstudent\.ac\.in$/`
    against the trimmed, lower-cased input. The regular expression is modelled by
    a direct reading of its shape (`Matches`) together with a declarative
    description (`ShapedAs`) and a proof that the two agree. */
module Login {
  import opened Options
  import opened Strings

  const Domain := "@vitstudent.ac.in"
  const EnterEmailMessage := "Please enter your email."
  const FormatMessage := "Please use your VIT student email (format: firstname.lastnameYYYY@vitstudent.ac.in)"

  /** `[a-zA-Z]+`. */
  predicate Word(w: string) {
    |w| > 0 && AllLetters(w)
  }

  /** `s` is `first '.' last year '@vitstudent.ac.in'` with the given pieces. */
  ghost predicate ShapedAs(s: string, first: string, last: string, year: string) {
    && Word(first) && Word(last)
    && |year| == 4 && AllDigits(year)
    && s == first + "." + last + year + Domain
  }

  /** The regular expression, read from the right: the domain, four digits,
      then two letter words around a single '.'. */
  predicate Matches(s: string) {
    && |s| >= |Domain| + 4
    && s[|s| - |Domain|..] == Domain
    && var local := s[..|s| - |Domain|];
       && AllDigits(local[|local| - 4..])
       && var parts := Split(local[..|local| - 4], '.');
          |parts| == 2 && Word(parts[0]) && Word(parts[1])
  }

  /** The address normalisation applied before matching. */
  function Normalize(email: string): string {
    Lower(Trim(email))
  }

  /** `isVitEmail`. */
  predicate IsVitEmail(email: string) {
    Matches(Normalize(email))
  }

  lemma LettersHaveNoDot(w: string)
    requires AllLetters(w)
    ensures '.' !in w
  {
    forall i | 0 <= i < |w| ensures w[i] != '.' {
      assert IsLetter(w[i]);
    }
  }

  /** The direct reading accepts exactly the strings of the stated shape. */
  lemma MatchesIffShaped(s: string)
    ensures Matches(s) <==> exists first, last, year :: ShapedAs(s, first, last, year)
  {
    if Matches(s) {
      var local := s[..|s| - |Domain|];
      var name := local[..|local| - 4];
      var year := local[|local| - 4..];
      var parts := Split(name, '.');
      assert name == parts[0] + "." + parts[1] by {
        assert Join(parts, '.') == name;
        assert parts[1..] == [parts[1]];
      }
      assert local == name + year;
      assert s == local + Domain;
      assert ShapedAs(s, parts[0], parts[1], year);
    }
    if exists first, last, year :: ShapedAs(s, first, last, year) {
      var first, last, year :| ShapedAs(s, first, last, year);
      ShapedMatches(s, first, last, year);
    }
  }

  lemma ShapedMatches(s: string, first: string, last: string, year: string)
    requires ShapedAs(s, first, last, year)
    ensures Matches(s)
  {
    var name := first + "." + last;
    var local := name + year;
    assert s == local + Domain;
    assert s[|s| - |Domain|..] == Domain;
    assert s[..|s| - |Domain|] == local;
    assert local[|local| - 4..] == year;
    assert local[..|local| - 4] == name;
    LettersHaveNoDot(first);
    LettersHaveNoDot(last);
    assert name == first + ['.'] + last;
    SplitAfterPiece(first, '.', last);
    SplitWithoutSeparator(last, '.');
  }

  /** Surrounding whitespace and letter case do not change the verdict. */
  lemma IsVitEmailIgnoresPaddingAndCase(p: string, s: string, q: string)
    requires AllWhitespace(p) && AllWhitespace(q)
    ensures IsVitEmail(p + s + q) == IsVitEmail(s)
    ensures IsVitEmail(Lower(s)) == IsVitEmail(s)
  {
    TrimIgnoresPadding(p, s, q);
    TrimLowerCommute(s);
    LowerIdempotent(Trim(s));
  }

  lemma LowerIdempotent(s: string)
    ensures Lower(Lower(s)) == Lower(s)
  {
  }

  /** Every accepted address ends in the student domain, preceded by four digits
      and, before them, a letter. */
  lemma AcceptedAddressShape(email: string)
    requires IsVitEmail(email)
    ensures var n := Normalize(email);
            && |n| >= |Domain| + 5
            && n[|n| - |Domain|..] == Domain
            && AllDigits(n[|n| - |Domain| - 4..|n| - |Domain|])
            && IsLetter(n[|n| - |Domain| - 5])
  {
    var n := Normalize(email);
    MatchesIffShaped(n);
    var first, last, year :| ShapedAs(n, first, last, year);
    assert n == first + "." + last + year + Domain;
    assert n[|n| - |Domain| - 4..|n| - |Domain|] == year;
    assert n[|n| - |Domain| - 5] == last[|last| - 1];
  }

  /** An address typed without padding or capitals is matched as it is. */
  lemma NormalizeUnpaddedLowercase(s: string)
    requires |s| > 0 && !IsWhitespace(s[0]) && !IsWhitespace(s[|s| - 1])
    requires forall i :: 0 <= i < |s| ==> !('A' <= s[i] <= 'Z')
    ensures Normalize(s) == s
  {
    TrimKeepsUnpadded(s);
    LowerKeepsLowercase(s);
  }

  /** The domain has no upper-case letter and does not end in whitespace. */
  lemma DomainIsNormal()
    ensures forall i :: 0 <= i < |Domain| ==> !('A' <= Domain[i] <= 'Z')
    ensures !IsWhitespace(Domain[|Domain| - 1])
  {
  }

  /** A student address typed in lower case without padding is its own normal form. */
  lemma NormalAddress(local: string)
    requires |local| > 0 && !IsWhitespace(local[0])
    requires forall i :: 0 <= i < |local| ==> !('A' <= local[i] <= 'Z')
    ensures Normalize(local + Domain) == local + Domain
  {
    var s := local + Domain;
    DomainIsNormal();
    forall i | 0 <= i < |s| ensures !('A' <= s[i] <= 'Z') {
      if i >= |local| {
        assert s[i] == Domain[i - |local|];
      }
    }
    NormalizeUnpaddedLowercase(s);
  }

  lemma AcceptsStudentAddress()
    ensures IsVitEmail("a.b2022" + Domain)
  {
    var ok := "a.b2022" + Domain;
    assert ShapedAs(ok, "a", "b", "2022");
    ShapedMatches(ok, "a", "b", "2022");
    NormalAddress("a.b2022");
  }

  /** A shaped address typed without padding or capitals is accepted. */
  lemma ShapedIsAccepted(s: string, first: string, last: string, year: string)
    requires ShapedAs(s, first, last, year) && Normalize(s) == s
    ensures IsVitEmail(s)
  {
    ShapedMatches(s, first, last, year);
  }

  lemma RejectsOtherDomain()
    ensures !IsVitEmail("a.b2022@gmail.com")
  {
    NormalizeUnpaddedLowercase("a.b2022@gmail.com");
  }

  /** Whatever the pattern accepts has a '.' before the domain. */
  lemma DotBeforeDomain(s: string)
    ensures Matches(s) ==> '.' in s[..|s| - |Domain|]
  {
    if Matches(s) {
      MatchesIffShaped(s);
      var first, last, year :| ShapedAs(s, first, last, year);
      assert s[..|s| - |Domain|][|first|] == '.';
    }
  }

  lemma RejectsMissingDot()
    ensures !IsVitEmail("ab2022" + Domain)
  {
    var nodot := "ab2022" + Domain;
    NormalAddress("ab2022");
    DotBeforeDomain(nodot);
    assert nodot[..|nodot| - |Domain|] == "ab2022";
  }

  lemma RejectsEmpty()
    ensures !IsVitEmail("")
  {
    assert Trim("") == "";
  }

  // ---------------------------------------------------------------- submit

  /** The box's input field and error line. */
  datatype Box = Box(email: string, error: string)

  /** The box after a submit, and the address handed to `login`, if it was called. */
  datatype Attempt = Attempt(box: Box, loggedInAs: Option<string>)

  /** `handleSubmit`. */
  function Submit(box: Box): (a: Attempt)
    ensures AllWhitespace(box.email) ==> a == Attempt(box.(error := EnterEmailMessage), None)
    ensures !AllWhitespace(box.email) && !IsVitEmail(box.email) ==> a == Attempt(box.(error := FormatMessage), None)
    ensures a.loggedInAs.Some? <==> IsVitEmail(box.email)
    ensures a.loggedInAs.Some? ==> a.loggedInAs.value == Trim(box.email) && a.box == Box("", "")
  {
    if Trim(box.email) == "" then
      Attempt(box.(error := EnterEmailMessage), None)
    else if !IsVitEmail(box.email) then
      Attempt(box.(error := FormatMessage), None)
    else
      Attempt(Box("", ""), Some(Trim(box.email)))
  }

  /** `s` with its first letter capitalised when that is a lower-case letter. */
  function Capitalised(s: string): (t: string)
    ensures |t| == |s|
    ensures |s| > 0 && 'a' <= s[0] <= 'z' ==> t[1..] == s[1..] && 'A' <= t[0] <= 'Z'
  {
    if |s| > 0 && 'a' <= s[0] <= 'z' then [(s[0] as int - 32) as char] + s[1..] else s
  }

  /** A string in normal form is its own trim and its own lower case. */
  lemma NormalIsTrimmedLower(s: string)
    requires Normalize(s) == s
    ensures Trim(s) == s && Lower(s) == s
  {
    var i :| OccursAt(s, Trim(s), i);
    assert s[0..|s|] == s;
  }

  /** The verdict depends on the normal form alone. */
  lemma SameNormalFormSameVerdict(t: string, s: string)
    requires Normalize(t) == Normalize(s)
    ensures IsVitEmail(t) == IsVitEmail(s)
  {
  }

  /** Whatever the pattern accepts starts with a letter. */
  lemma MatchedStartsWithLetter(s: string)
    requires Matches(s)
    ensures |s| > 0 && IsLetter(s[0])
  {
    MatchesIffShaped(s);
    var first, last, year :| ShapedAs(s, first, last, year);
    assert s[0] == first[0];
  }

  /** An accepted address in normal form starts with a lower-case letter. */
  lemma NormalFormStartsLower(s: string)
    requires IsVitEmail(s) && Normalize(s) == s
    ensures |s| > 0 && 'a' <= s[0] <= 'z'
  {
    assert Matches(s);
    MatchedStartsWithLetter(s);
    NormalIsTrimmedLower(s);
    assert Lower(s)[0] == s[0];
  }

  /** Capitalising the first letter of a trimmed lower-case string changes neither
      its trim nor its lower case. */
  lemma CapitalisedNormalizes(s: string)
    requires |s| > 0 && 'a' <= s[0] <= 'z'
    requires Trim(s) == s && Lower(s) == s
    ensures Trim(Capitalised(s)) == Capitalised(s)
    ensures Lower(Capitalised(s)) == s
  {
    var t := Capitalised(s);
    assert !IsWhitespace(t[|t| - 1]) by {
      if |s| > 1 {
        assert !IsWhitespace(s[|s| - 1]);
        assert t[1..][|t| - 2] == s[1..][|s| - 2];
      }
    }
    TrimKeepsUnpadded(t);
    forall i | 0 <= i < |t| ensures Lower(t)[i] == s[i] {
      if i > 0 {
        assert t[i] == t[1..][i - 1] == s[1..][i - 1] == s[i];
        assert Lower(s)[i] == s[i];
      }
    }
  }

  /** The address logged in keeps the letter case typed: two spellings with the
      same normal form are judged alike, yet each logs in as itself. */
  lemma LoginKeepsCase(s: string, typed: string)
    requires IsVitEmail(s) && Normalize(s) == s
    requires Normalize(typed) == s && Trim(typed) == typed
    ensures Submit(Box(s, "")).loggedInAs == Some(s)
    ensures Submit(Box(typed, "")).loggedInAs == Some(typed)
  {
    NormalIsTrimmedLower(s);
    SameNormalFormSameVerdict(typed, s);
  }

  /** Every accepted address in normal form has another spelling with the same
      normal form: the one with a capital first letter. */
  lemma CapitalisedIsAnotherSpelling(s: string)
    requires IsVitEmail(s) && Normalize(s) == s
    ensures var typed := Capitalised(s);
            Normalize(typed) == s && Trim(typed) == typed && typed != s
  {
    NormalFormStartsLower(s);
    NormalIsTrimmedLower(s);
    CapitalisedNormalizes(s);
    var typed := Capitalised(s);
    assert Lower(Trim(typed)) == s;
    assert typed[0] != s[0];
  }
}

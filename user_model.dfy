/** The user schema of backend/models/User.model.js: the `trim` and `lowercase`
    setters, the `bio` default, the `required` rules, the email `match` pattern
    `/.+\@.+\..+/` and the password `minlength` of 6.

    Setters run before validation, so the validators see normalised values. For each
    path the validators run in the order Mongoose keeps them (`required` first) and the
    first one that fails is the one reported. `match` and `minlength` accept `null`,
    and no validator but `required` runs on `undefined`. */
module UserModel {
  import opened Basics
  import opened Strings

  /** The fields a caller hands to `new User(...)`; `None` is an undefined or null field. */
  datatype UserInput = UserInput(name: Option<string>, bio: Option<string>, email: Option<string>, password: Option<string>)

  /** A document that passed validation, with its stored (normalised) values. */
  datatype User = User(name: string, bio: string, email: string, password: string)

  /** The message each validator reports. */
  datatype FieldError = NameRequired | EmailRequired | InvalidEmail | PasswordRequired | PasswordTooShort

  datatype Validation = Accepted(user: User) | Rejected(errors: set<FieldError>)

  /** The regular expression `.+` `@` `.+` `\.` `.+` matches `s[i..e]`, its three `.+`
      runs being `s[i..j]`, `s[j + 1..k]` and `s[k + 1..e]`. `.` matches any character
      but a line terminator. */
  predicate RegexMatchAt(s: string, i: int, j: int, k: int, e: int) {
    && 0 <= i < j && j + 1 < k && k + 1 < e <= |s|
    && s[j] == '@' && s[k] == '.'
    && forall m :: i <= m < e ==> !IsLineTerminator(s[m])
  }

  /** `RegExp.prototype.test` for the unanchored pattern: some substring matches. */
  predicate EmailMatches(s: string) {
    exists i, j, k, e | 0 <= i < j < k < e <= |s| :: RegexMatchAt(s, i, j, k, e)
  }

  /** The shortest possible match around an '@' at `j` and a '.' at `k`: one character
      before the '@', at least one between, one after the '.', all on one line. */
  predicate ShortestMatchAt(s: string, j: int, k: int) {
    && 1 <= j && j + 1 < k && k + 2 <= |s|
    && s[j] == '@' && s[k] == '.'
    && forall m :: j - 1 <= m < k + 2 ==> !IsLineTerminator(s[m])
  }

  /** The pattern matches iff some '@' has a character before it and, later on the same
      line, a '.' separated from it by at least one character and followed by one. */
  lemma EmailMatchesIff(s: string)
    ensures EmailMatches(s) <==> exists j, k :: ShortestMatchAt(s, j, k)
  {
    if EmailMatches(s) {
      var i, j, k, e :| RegexMatchAt(s, i, j, k, e);
    assert RegexMatchAt(s, i, j, k, e);
      assert ShortestMatchAt(s, j, k);
    }
    if exists j, k :: ShortestMatchAt(s, j, k) {
      var j, k :| ShortestMatchAt(s, j, k);
      assert RegexMatchAt(s, j - 1, j, k, k + 2);
    }
  }

  /** A match needs an '@' that is not the first character and a later '.'. */
  lemma EmailMatchNeeds(s: string)
    requires EmailMatches(s)
    ensures exists j :: 1 <= j < |s| && s[j] == '@'
    ensures '.' in s
  {
    var i, j, k, e :| RegexMatchAt(s, i, j, k, e);
    assert RegexMatchAt(s, i, j, k, e);
    assert s[k] == '.';
  }

  /** Characters before and after a match do not undo it. */
  lemma EmailMatchExtends(a: string, s: string, b: string)
    requires EmailMatches(s)
    ensures EmailMatches(a + s + b)
  {
    var i, j, k, e :| RegexMatchAt(s, i, j, k, e);
    assert RegexMatchAt(s, i, j, k, e);
    var t := a + s + b;
    forall m | |a| + i <= m < |a| + e ensures !IsLineTerminator(t[m]) {
      assert t[m] == s[m - |a|];
    }
    assert RegexMatchAt(t, |a| + i, |a| + j, |a| + k, |a| + e);
  }

  /** A match inside a slice of `s` lies inside `s` itself at the shifted indices. */
  lemma MatchInSlice(s: string, lo: int, hi: int, i: int, j: int, k: int, e: int)
    requires 0 <= lo <= i && e <= hi <= |s|
    requires RegexMatchAt(s, i, j, k, e)
    ensures RegexMatchAt(s[lo..hi], i - lo, j - lo, k - lo, e - lo)
  {
    var t := s[lo..hi];
    forall m | i - lo <= m < e - lo ensures !IsLineTerminator(t[m]) {
      assert t[m] == s[m + lo];
    }
  }

  /** The pattern cannot run across a line break: a string matches iff one of the two
      pieces around a line terminator does, so it matches iff one of its lines does. */
  lemma EmailMatchesLines(a: string, c: char, b: string)
    requires IsLineTerminator(c)
    ensures EmailMatches(a + [c] + b) <==> EmailMatches(a) || EmailMatches(b)
  {
    if EmailMatches(a + [c] + b) {
      MatchWithinLine(a, c, b);
    }
    if EmailMatches(a) {
      EmailMatchExtends([], a, [c] + b);
      assert [] + a + ([c] + b) == a + [c] + b;
    }
    if EmailMatches(b) {
      EmailMatchExtends(a + [c], b, []);
      assert a + [c] + b + [] == a + [c] + b;
    }
  }

  /** A match never covers a line terminator, so it lies on one side of it. */
  lemma MatchWithinLine(a: string, c: char, b: string)
    requires IsLineTerminator(c) && EmailMatches(a + [c] + b)
    ensures EmailMatches(a) || EmailMatches(b)
  {
    var t := a + [c] + b;
    assert t[..|a|] == a;
    assert t[|a| + 1..] == b;
    var i, j, k, e :| RegexMatchAt(t, i, j, k, e);
    assert RegexMatchAt(t, i, j, k, e);
    assert t[|a|] == c;
    if e <= |a| {
      MatchInSlice(t, 0, |a|, i, j, k, e);
      assert RegexMatchAt(a, i, j, k, e);
    } else {
      assert |a| < i;
      var o := |a| + 1;
      MatchInSlice(t, o, |t|, i, j, k, e);
      assert RegexMatchAt(b, i - o, j - o, k - o, e - o);
    }
  }

  /** Sample inputs: an ordinary address matches; the pattern needs a character before
      the '@' and a character between the '@' and the '.'. */
  lemma EmailExamples()
    ensures EmailMatches("ann@mail.com")
    ensures !EmailMatches("@mail.com")
    ensures !EmailMatches("ann@.com")
  {
    assert RegexMatchAt("ann@mail.com", 2, 3, 8, 10);
    EmailMatchesIff("@mail.com");
    EmailMatchesIff("ann@.com");
  }

  /** The `name` setter: `trim`. */
  function NormaliseName(s: string): (r: string)
    ensures Trimmed(r) && |r| <= |s|
  {
    Trim(s)
  }

  /** The `email` setters in declaration order: `lowercase`, then `trim`. */
  function NormaliseEmail(s: string): (r: string)
    ensures Trimmed(r)
    ensures forall i :: 0 <= i < |r| ==> !('A' <= r[i] <= 'Z')
    ensures r == Lower(Trim(s))
  {
    TrimLowerCommute(s);
    LowerHasNoUpper(Trim(s));
    Trim(Lower(s))
  }

  /** Lowercasing leaves no ASCII capital. */
  lemma LowerHasNoUpper(t: string)
    ensures forall i :: 0 <= i < |Lower(t)| ==> !('A' <= Lower(t)[i] <= 'Z')
  {
  }

  /** Normalising a stored email again changes nothing. */
  lemma NormaliseEmailIdempotent(s: string)
    ensures NormaliseEmail(NormaliseEmail(s)) == NormaliseEmail(s)
  {
    var t := NormaliseEmail(s);
    TrimOfTrimmed(t);
    LowerIdempotent(Trim(s));
    assert NormaliseEmail(t) == Lower(t);
  }

  /** The `bio` path: the default "" when undefined, and `trim`. */
  function NormaliseBio(b: Option<string>): (r: string)
    ensures Trimmed(r)
    ensures b.None? ==> r == ""
  {
    match b
    case None => ""
    case Some(s) => Trim(s)
  }

  /** The first failing validator of `name`, if any. */
  function NameError(name: Option<string>): (r: Option<FieldError>)
    ensures r.None? <==> name.Some? && !AllWhitespace(name.value)
    ensures r.Some? ==> r.value == NameRequired
  {
    if name.None? || NormaliseName(name.value) == "" then Some(NameRequired) else None
  }

  /** The first failing validator of `email` (`required`, then `match`), if any. */
  function EmailError(email: Option<string>): (r: Option<FieldError>)
    ensures r == Some(EmailRequired) <==> email.None? || AllWhitespace(email.value)
    ensures r.None? <==> email.Some? && EmailMatches(NormaliseEmail(email.value))
    ensures r.Some? ==> r.value == EmailRequired || r.value == InvalidEmail
  {
    if email.None? || NormaliseEmail(email.value) == "" then Some(EmailRequired)
    else if !EmailMatches(NormaliseEmail(email.value)) then Some(InvalidEmail)
    else None
  }

  /** The first failing validator of `password` (`required`, then `minlength`), if any.
      `minlength` counts UTF-16 code units. */
  function PasswordError(password: Option<string>): (r: Option<FieldError>)
    ensures r == Some(PasswordRequired) <==> password.None? || password.value == ""
    ensures r.None? <==> password.Some? && Utf16Length(password.value) >= 6
    ensures r.Some? ==> r.value == PasswordRequired || r.value == PasswordTooShort
  {
    if password.None? || password.value == "" then Some(PasswordRequired)
    else if Utf16Length(password.value) < 6 then Some(PasswordTooShort)
    else None
  }

  function ErrorSet(e: Option<FieldError>): (r: set<FieldError>)
    ensures forall x :: x in r <==> e == Some(x)
  {
    if e.Some? then {e.value} else {}
  }

  /** Building and validating a user document. */
  function ValidateUser(input: UserInput): (v: Validation)
    ensures v.Accepted? <==>
              && input.name.Some? && !AllWhitespace(input.name.value)
              && input.email.Some? && EmailMatches(NormaliseEmail(input.email.value))
              && input.password.Some? && Utf16Length(input.password.value) >= 6
    ensures v.Accepted? ==>
              v.user == User(Trim(input.name.value), NormaliseBio(input.bio),
                             NormaliseEmail(input.email.value), input.password.value)
    ensures v.Rejected? ==> v.errors != {}
  {
    var name, email, password := NameError(input.name), EmailError(input.email), PasswordError(input.password);
    if name.None? && email.None? && password.None? then
      Accepted(User(NormaliseName(input.name.value), NormaliseBio(input.bio),
                    NormaliseEmail(input.email.value), input.password.value))
    else Rejected(ErrorSet(name) + ErrorSet(email) + ErrorSet(password))
  }

  /** A rejection reports `name` as required exactly when it is missing or blank. */
  lemma NameRejection(input: UserInput)
    requires ValidateUser(input).Rejected?
    ensures NameRequired in ValidateUser(input).errors <==> input.name.None? || AllWhitespace(input.name.value)
  {
    RejectedErrors(input);
  }

  /** The errors of a rejection are the first failure of each path. */
  lemma RejectedErrors(input: UserInput)
    requires ValidateUser(input).Rejected?
    ensures ValidateUser(input).errors == ErrorSet(NameError(input.name)) + ErrorSet(EmailError(input.email)) + ErrorSet(PasswordError(input.password))
  {
  }

  /** A rejection reports `email` as required when it is missing or blank, and as
      malformed when it is there but the normalised value does not match the pattern. */
  lemma EmailRejection(input: UserInput)
    requires ValidateUser(input).Rejected?
    ensures EmailRequired in ValidateUser(input).errors <==> input.email.None? || AllWhitespace(input.email.value)
    ensures InvalidEmail in ValidateUser(input).errors <==>
              input.email.Some? && !AllWhitespace(input.email.value) && !EmailMatches(NormaliseEmail(input.email.value))
  {
    RejectedErrors(input);
  }

  /** A rejection reports `password` as required when it is missing or "", and as too
      short when it has fewer than six UTF-16 code units. */
  lemma PasswordRejection(input: UserInput)
    requires ValidateUser(input).Rejected?
    ensures PasswordRequired in ValidateUser(input).errors <==> input.password.None? || input.password.value == ""
    ensures PasswordTooShort in ValidateUser(input).errors <==>
              input.password.Some? && input.password.value != "" && Utf16Length(input.password.value) < 6
  {
    RejectedErrors(input);
  }

  /** An accepted user is stored in normal form: validating the stored values again
      accepts them unchanged. */
  lemma ValidateStored(input: UserInput)
    requires ValidateUser(input).Accepted?
    ensures var u := ValidateUser(input).user;
            ValidateUser(UserInput(Some(u.name), Some(u.bio), Some(u.email), Some(u.password))) == Accepted(u)
  {
    var u := ValidateUser(input).user;
    assert u.name == Trim(input.name.value) && u.email == NormaliseEmail(input.email.value);
    NameStable(input.name.value);
    EmailStable(input.email.value);
    BioStable(input.bio);
    assert NameError(Some(u.name)) == None;
    assert EmailError(Some(u.email)) == None;
    assert PasswordError(Some(u.password)) == None;
  }

  lemma BioStable(b: Option<string>)
    ensures NormaliseBio(Some(NormaliseBio(b))) == NormaliseBio(b)
  {
    TrimOfTrimmed(NormaliseBio(b));
  }

  lemma NameStable(n: string)
    requires !AllWhitespace(n)
    ensures NameError(Some(Trim(n))) == None && NormaliseName(Trim(n)) == Trim(n)
  {
    TrimIdempotent(n);
    var t := Trim(n);
    assert t != [] && !IsWhitespace(t[0]);
  }

  lemma EmailStable(m: string)
    requires EmailMatches(NormaliseEmail(m))
    ensures EmailError(Some(NormaliseEmail(m))) == None && NormaliseEmail(NormaliseEmail(m)) == NormaliseEmail(m)
  {
    NormaliseEmailIdempotent(m);
  }

  /** Six characters are always long enough; one or two characters (at most four UTF-16
      code units) never are. */
  lemma PasswordLengthBounds(p: string)
    ensures |p| >= 6 ==> PasswordError(Some(p)).None?
    ensures 0 < |p| && 2 * |p| < 6 ==> PasswordError(Some(p)) == Some(PasswordTooShort)
  {
  }
}

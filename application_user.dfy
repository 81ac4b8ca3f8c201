/** The ApplicationUser model: the identity user with profile fields. */
module ApplicationUsers {
  import opened Wrappers
  import opened Text
  import opened DataAnnotations

  /** Instants (`DateTime`, `DateTimeOffset`) are tick counts. */
  type Instant = int

  datatype ApplicationUser = ApplicationUser(
    id: string,
    firstname: string,
    lastname: string,
    company: string,
    acceptTermsOfService: bool,
    language: string,
    lastAccess: Instant,
    approved: bool,
    lockoutEnabled: bool,
    lockoutEnd: Option<Instant>,
    passwordHash: Option<string>)

  /** The `FullName` getter. */
  function FullName(u: ApplicationUser): string {
    Trim(u.firstname + " " + u.lastname)
  }

  /** The full name never starts or ends with white space, and is what is
      left of "first last" after trimming. */
  lemma FullNameTrimmed(u: ApplicationUser)
    ensures NoOuterWhiteSpace(FullName(u))
    ensures |FullName(u)| <= |u.firstname| + 1 + |u.lastname|
  {
    TrimSpec(u.firstname + " " + u.lastname);
  }

  /** Without a last name the full name is the trimmed first name; with no
      names at all it is empty. */
  lemma FullNameNoLastname(u: ApplicationUser)
    requires u.lastname == ""
    ensures FullName(u) == Trim(u.firstname)
    ensures u.firstname == "" ==> FullName(u) == ""
  {
    var f := u.firstname;
    assert f + " " + u.lastname == f + " ";
    if AllWhiteSpace(f) {
      assert AllWhiteSpace(f + " ");
      TrimStartAllWhite(f + " ");
      TrimStartAllWhite(f);
    } else {
      TrimStartAppend(f, " ");
      TrimEndAppendWhite(TrimStart(f), " ");
    }
  }

  /** Names that are already trimmed and not empty are joined by exactly one space. */
  lemma FullNameJoin(u: ApplicationUser)
    requires u.firstname != [] && u.lastname != []
    requires NoOuterWhiteSpace(u.firstname) && NoOuterWhiteSpace(u.lastname)
    ensures FullName(u) == u.firstname + " " + u.lastname
  {
    var s := u.firstname + " " + u.lastname;
    assert s[0] == u.firstname[0];
    assert s[|u.firstname|] == ' ';
    assert s[|s| - 1] == u.lastname[|u.lastname| - 1];
    assert NoOuterWhiteSpace(s);
    TrimNoOuter(s);
  }

  /** All the validation attributes of the model. */
  predicate ValidApplicationUser(u: ApplicationUser) {
    && Required(Some(u.firstname)) && StringLength(Some(u.firstname), 80, 0)
    && Required(Some(u.lastname)) && StringLength(Some(u.lastname), 80, 0)
    && Required(Some(u.company)) && StringLength(Some(u.company), 80, 0)
    && Required(Some(u.language)) && StringLength(Some(u.language), 16, 0)
  }

  lemma ValidApplicationUserBounds(u: ApplicationUser)
    requires ValidApplicationUser(u)
    ensures 1 <= |u.firstname| <= 80 && 1 <= |u.lastname| <= 80 && 1 <= |u.company| <= 80
    ensures 1 <= |u.language| <= 16
    ensures 1 <= |FullName(u)| <= 161
  {
    FullNameTrimmed(u);
    var s := u.firstname + " " + u.lastname;
    assert !AllWhiteSpace(u.firstname);
    var k :| 0 <= k < |u.firstname| && !IsWhiteSpace(u.firstname[k]);
    assert s[k] == u.firstname[k];
    assert !AllWhiteSpace(s);
    TrimEmptyIffAllWhite(s);
    assert FullName(u) == Trim(s) && Trim(s) != [];
  }
}

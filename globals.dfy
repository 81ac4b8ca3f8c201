/**
 * Application-wide constants: the three role names, their fixed order, and
 * the attachment Guid pattern `^\/uploads\/([\d]{4})\/([\d]{2})\/([\w\-.]+)$`
 * written as a hand-coded matcher.
 */
module Globals {
  import opened Wrappers

  const RoleAdmin: string := "Administrator"
  const RoleSupervisor: string := "Supervisor"
  const RoleCompanyUser: string := "Company"

  /** The roles, highest privilege first. */
  const Roles: seq<string> := [RoleAdmin, RoleSupervisor, RoleCompanyUser]

  lemma RolesDistinct()
    ensures |Roles| == 3
    ensures RoleAdmin != RoleSupervisor && RoleAdmin != RoleCompanyUser && RoleSupervisor != RoleCompanyUser
    ensures forall i, j :: 0 <= i < j < |Roles| ==> Roles[i] != Roles[j]
  {
  }

  /** The position of a role in `Roles`; `None` for a name that is not a role. */
  function Rank(role: string): (k: Option<nat>)
    ensures k.Some? <==> role in Roles
    ensures k.Some? ==> k.value < |Roles| && Roles[k.value] == role
  {
    if role == RoleAdmin then Some(0)
    else if role == RoleSupervisor then Some(1)
    else if role == RoleCompanyUser then Some(2)
    else None
  }

  /** `boss` is a role strictly above `role` in the fixed order. */
  predicate Outranks(boss: string, role: string) {
    Rank(boss).Some? && Rank(role).Some? && Rank(boss).value < Rank(role).value
  }

  function KeepOutranked(boss: string, rs: seq<string>): (r: seq<string>)
    ensures forall x :: x in r <==> x in rs && Outranks(boss, x)
  {
    if rs == [] then []
    else (if Outranks(boss, rs[0]) then [rs[0]] else []) + KeepOutranked(boss, rs[1..])
  }

  /** Reference definition of the role hierarchy: the roles below `role`, in
      the order of `Roles`. A name that is not a role has none below it. */
  function Subordinates(role: string): seq<string> {
    KeepOutranked(role, Roles)
  }

  /** The hierarchy spelled out: Administrator is above Supervisor and
      Company, Supervisor above Company, and every other name above none. */
  lemma SubordinatesValues(role: string)
    ensures role == RoleAdmin ==> Subordinates(role) == [RoleSupervisor, RoleCompanyUser]
    ensures role == RoleSupervisor ==> Subordinates(role) == [RoleCompanyUser]
    ensures role != RoleAdmin && role != RoleSupervisor ==> Subordinates(role) == []
  {
    RolesDistinct();
    assert Roles[1..] == [RoleSupervisor, RoleCompanyUser];
    assert Roles[1..][1..] == [RoleCompanyUser];
    assert Roles[1..][1..][1..] == [];
    var k3 := KeepOutranked(role, []);
    var k2 := KeepOutranked(role, [RoleCompanyUser]);
    var k1 := KeepOutranked(role, [RoleSupervisor, RoleCompanyUser]);
    assert k3 == [];
    assert k2 == (if Outranks(role, RoleCompanyUser) then [RoleCompanyUser] else []) + k3;
    assert k1 == (if Outranks(role, RoleSupervisor) then [RoleSupervisor] else []) + k2;
    assert Subordinates(role) == (if Outranks(role, RoleAdmin) then [RoleAdmin] else []) + k1;
    assert !Outranks(role, RoleAdmin);
  }

  // ---------------------------------------------------------------------
  // The attachment Guid pattern

  /** The .NET character classes `\d` (Unicode decimal digits) and `\w`
      (Unicode letters, marks, digits and connector punctuation), left
      abstract. */
  datatype CharClasses = CharClasses(digit: char -> bool, word: char -> bool)

  /** The facts about the .NET classes that the properties below rely on. */
  ghost predicate DotNetLike(cls: CharClasses) {
    && (forall c :: '0' <= c <= '9' ==> cls.digit(c))
    && (forall c :: ('0' <= c <= '9' || 'a' <= c <= 'z' || 'A' <= c <= 'Z' || c == '_') ==> cls.word(c))
    && !cls.digit('/') && !cls.word('/')
    && !cls.word('\n')
  }

  predicate AllDigits(cls: CharClasses, s: string) {
    forall i :: 0 <= i < |s| ==> cls.digit(s[i])
  }

  /** The bracket class `[\w\-.]`. */
  predicate FileChar(cls: CharClasses, c: char) {
    cls.word(c) || c == '-' || c == '.'
  }

  predicate AllFileChars(cls: CharClasses, s: string) {
    forall i :: 0 <= i < |s| ==> FileChar(cls, s[i])
  }

  /** The three capture groups of the Guid pattern. */
  datatype GuidParts = GuidParts(year: string, month: string, file: string)

  /** A successful match: its groups and its length (the match starts at 0). */
  datatype GuidMatch = GuidMatch(parts: GuidParts, length: nat)

  /** The groups are what the pattern allows in them. */
  predicate WellFormedParts(cls: CharClasses, p: GuidParts) {
    && |p.year| == 4 && AllDigits(cls, p.year)
    && |p.month| == 2 && AllDigits(cls, p.month)
    && |p.file| >= 1 && AllFileChars(cls, p.file)
  }

  /** The virtual path that a Guid encodes. */
  function GuidPath(p: GuidParts): string {
    "/uploads/" + p.year + "/" + p.month + "/" + p.file
  }

  /** Everything up to the third group: "/uploads/" 4 digits "/" 2 digits "/". */
  predicate GuidHead(cls: CharClasses, s: string) {
    && |s| >= 17
    && s[..9] == "/uploads/"
    && AllDigits(cls, s[9..13]) && s[13] == '/'
    && AllDigits(cls, s[14..16]) && s[16] == '/'
  }

  /** `Regex.Match` with the Guid pattern. The greedy third group first
      takes the whole rest of the input; .NET's `$` also matches just before
      a final "\n", so the rest may end with one newline that is not part of
      the match. */
  function MatchGuid(cls: CharClasses, s: string): (r: Option<GuidMatch>)
    ensures r.Some? ==> r.value.length == |s| || (r.value.length + 1 == |s| && s[|s| - 1] == '\n')
  {
    if !GuidHead(cls, s) then None
    else
      var rest := s[17..];
      var parts := GuidParts(s[9..13], s[14..16], rest);
      if |rest| >= 1 && AllFileChars(cls, rest) then
        Some(GuidMatch(parts, |s|))
      else if |rest| >= 2 && rest[|rest| - 1] == '\n' && AllFileChars(cls, rest[..|rest| - 1]) then
        Some(GuidMatch(GuidParts(s[9..13], s[14..16], rest[..|rest| - 1]), |s| - 1))
      else None
  }

  lemma GuidPathShape(p: GuidParts)
    requires |p.year| == 4 && |p.month| == 2
    ensures var s := GuidPath(p);
      && |s| == 17 + |p.file|
      && s[..9] == "/uploads/" && s[9..13] == p.year && s[13] == '/'
      && s[14..16] == p.month && s[16] == '/' && s[17..] == p.file
  {
  }

  /** Decoding the path built from well-formed groups gives back the groups,
      with or without one trailing newline. */
  lemma GuidRoundTrip(cls: CharClasses, p: GuidParts)
    requires WellFormedParts(cls, p)
    ensures MatchGuid(cls, GuidPath(p)) == Some(GuidMatch(p, |GuidPath(p)|))
    ensures !cls.word('\n') ==>
      MatchGuid(cls, GuidPath(p) + "\n") == Some(GuidMatch(p, |GuidPath(p)|))
  {
    var s := GuidPath(p);
    GuidPathShape(p);
    assert GuidHead(cls, s);
    if !cls.word('\n') {
      var s' := s + "\n";
      assert s'[..|s|] == s;
      assert s'[..9] == s[..9] && s'[9..13] == s[9..13] && s'[14..16] == s[14..16];
      assert GuidHead(cls, s');
      var rest := s'[17..];
      assert rest == p.file + "\n";
      assert !FileChar(cls, rest[|rest| - 1]);
      assert !AllFileChars(cls, rest);
      assert rest[..|rest| - 1] == p.file;
    }
  }

  /** A match decodes its input: the input is the path of the groups, or that
      path and one newline, and the groups are well-formed. */
  lemma GuidMatchInverse(cls: CharClasses, s: string)
    requires MatchGuid(cls, s).Some?
    ensures var m := MatchGuid(cls, s).value;
      && WellFormedParts(cls, m.parts)
      && m.length == |GuidPath(m.parts)|
      && (s == GuidPath(m.parts) || s == GuidPath(m.parts) + "\n")
  {
    var m := MatchGuid(cls, s).value;
    var rest := s[17..];
    assert s == s[..9] + s[9..13] + "/" + s[14..16] + "/" + rest;
    if !(|rest| >= 1 && AllFileChars(cls, rest)) {
      assert rest == rest[..|rest| - 1] + "\n";
    }
  }

  /** The file group cannot hold a '/', so the matched path has its slashes
      exactly at positions 0, 8, 13 and 16: "/" uploads "/" year "/" month "/" file. */
  lemma GuidSlashes(cls: CharClasses, s: string)
    requires DotNetLike(cls) && MatchGuid(cls, s).Some?
    ensures var n := MatchGuid(cls, s).value.length;
      forall i :: 0 <= i < n ==> (s[i] == '/' <==> i == 0 || i == 8 || i == 13 || i == 16)
  {
    GuidMatchInverse(cls, s);
    var m := MatchGuid(cls, s).value;
    GuidPathShape(m.parts);
    var path := GuidPath(m.parts);
    assert s[..m.length] == path;
    forall i | 0 <= i < m.length
      ensures s[i] == '/' <==> i == 0 || i == 8 || i == 13 || i == 16
    {
      assert s[i] == path[i];
      if 9 <= i < 13 {
        assert path[i] == m.parts.year[i - 9];
      } else if 14 <= i < 16 {
        assert path[i] == m.parts.month[i - 14];
      } else if i >= 17 {
        assert path[i] == m.parts.file[i - 17];
      }
    }
  }

  /** The month group takes any two digits: there is no 01..12 check. */
  lemma GuidMonthUnchecked(cls: CharClasses)
    requires DotNetLike(cls)
    ensures MatchGuid(cls, "/uploads/2024/99/a.b") == Some(GuidMatch(GuidParts("2024", "99", "a.b"), 20))
  {
    var p := GuidParts("2024", "99", "a.b");
    assert GuidPath(p) == "/uploads/2024/99/a.b";
    assert WellFormedParts(cls, p);
    GuidRoundTrip(cls, p);
  }

  /** Examples: a well-formed Guid path, and a path that does not start
      with "/uploads/" and is rejected. */
  lemma GuidExamples(cls: CharClasses)
    requires DotNetLike(cls)
    ensures MatchGuid(cls, "/uploads/2024/03/photo.jpg")
      == Some(GuidMatch(GuidParts("2024", "03", "photo.jpg"), 26))
    ensures MatchGuid(cls, "/bad/path") == None
  {
    var p := PhotoParts();
    PhotoPartsWellFormed(cls);
    assert GuidPath(p) == "/uploads/2024/03/photo.jpg";
    GuidRoundTrip(cls, p);
  }

  /** The groups of the example upload "/uploads/2024/03/photo.jpg". */
  function PhotoParts(): GuidParts {
    GuidParts("2024", "03", "photo.jpg")
  }

  lemma PhotoPartsWellFormed(cls: CharClasses)
    requires DotNetLike(cls)
    ensures WellFormedParts(cls, PhotoParts())
  {
    var p := PhotoParts();
    assert AllDigits(cls, p.year) by {
      forall i | 0 <= i < 4 ensures cls.digit(p.year[i]) {
        assert '0' <= p.year[i] <= '9';
      }
    }
    assert AllDigits(cls, p.month) by {
      forall i | 0 <= i < 2 ensures cls.digit(p.month[i]) {
        assert '0' <= p.month[i] <= '9';
      }
    }
    assert AllFileChars(cls, p.file) by {
      forall i | 0 <= i < 9 ensures FileChar(cls, p.file[i]) {
        assert 'a' <= p.file[i] <= 'z' || p.file[i] == '.';
      }
    }
  }
}

/**
 * The Attachment model: an uploaded file, the container (directory or blob
 * container) that holds it and the Guid that encodes its virtual path.
 */
module Attachments {
  import opened Wrappers
  import opened Text
  import opened DataAnnotations
  import opened Globals

  datatype Attachment = Attachment(
    id: int,
    file: string,
    guid: string,
    description: Option<string>,
    container: string,
    thumbFile: Option<string>,
    thumbContainer: Option<string>,
    originalFilename: string,
    mimeType: string,
    created: int,
    createdById: Option<string>)

  // ---------------------------------------------------------------------
  // The container name pattern `^[a-z0-9](?!.*--)[a-z0-9-]{1,61}[a-z0-9]$`

  predicate LowerAlnum(c: char) {
    'a' <= c <= 'z' || '0' <= c <= '9'
  }

  predicate LowerAlnumDash(c: char) {
    LowerAlnum(c) || c == '-'
  }

  /** The look-ahead `.*--` at position `from`: a "--" that is reached
      without crossing a newline (`.` does not match "\n"). */
  predicate DashDashAhead(s: string, from: nat) {
    exists i :: from <= i && i + 1 < |s| && s[i] == '-' && s[i + 1] == '-' && NoNewline(s, from, i)
  }

  predicate NoNewline(s: string, from: nat, to: nat) {
    forall j :: from <= j < to && j < |s| ==> s[j] != '\n'
  }

  predicate HasDoubleDash(s: string) {
    exists i :: 0 <= i && i + 1 < |s| && s[i] == '-' && s[i + 1] == '-'
  }

  /** The pattern matches the first `n` characters of `s`. */
  predicate ContainerBody(s: string, n: nat) {
    && 3 <= n <= 63 && n <= |s|
    && LowerAlnum(s[0])
    && !DashDashAhead(s, 1)
    && (forall i :: 1 <= i < n - 1 ==> LowerAlnumDash(s[i]))
    && LowerAlnum(s[n - 1])
  }

  /** `Regex.Match` with the container pattern; `$` also matches before a
      final newline, which gives a match one shorter than the input. */
  function ContainerMatch(s: string): (r: RegexMatch)
    ensures r.Match? ==> r.index == 0 && (r.length == |s| || (r.length + 1 == |s| && s[|s| - 1] == '\n'))
    ensures r.Match? ==> 3 <= r.length <= 63
  {
    if ContainerBody(s, |s|) then Match(0, |s|)
    else if |s| >= 1 && s[|s| - 1] == '\n' && ContainerBody(s, |s| - 1) then Match(0, |s| - 1)
    else NoMatch
  }

  /** The attributes on `Container`: required, the pattern, 3 to 63 characters. */
  predicate ValidContainer(s: string) {
    && Required(Some(s))
    && RegularExpression(Some(s), ContainerMatch(s))
    && StringLength(Some(s), 63, 3)
  }

  /** The attributes on `ThumbContainer`: the same without `[Required]`. */
  predicate ValidThumbContainer(s: Option<string>) {
    && (s.None? || RegularExpression(s, ContainerMatch(s.value)))
    && StringLength(s, 63, 3)
  }

  /** The Azure Blob Storage container naming rule, stated directly. */
  predicate IsContainerName(s: string) {
    && 3 <= |s| <= 63
    && (forall i :: 0 <= i < |s| ==> LowerAlnumDash(s[i]))
    && LowerAlnum(s[0]) && LowerAlnum(s[|s| - 1])
    && !HasDoubleDash(s)
  }

  /** Without the look-ahead's "--", no "--" sits after a newline-free run
      from position 1. */
  lemma NoDashDashAt(s: string, i: nat)
    requires !DashDashAhead(s, 1) && 1 <= i && i + 1 < |s| && NoNewline(s, 1, i)
    ensures !(s[i] == '-' && s[i + 1] == '-')
  {
  }

  /** The validation of `Container` accepts exactly the container names:
      3 to 63 characters from [a-z0-9-], a letter or digit at both ends, and
      never two dashes in a row. */
  lemma ValidContainerIff(s: string)
    ensures ValidContainer(s) <==> IsContainerName(s)
  {
    if ValidContainer(s) {
      assert ContainerBody(s, |s|);
      forall i | 0 <= i && i + 1 < |s| ensures !(s[i] == '-' && s[i + 1] == '-') {
        if i > 0 {
          assert NoNewline(s, 1, i);
          NoDashDashAt(s, i);
        }
      }
    }
    if IsContainerName(s) {
      assert ContainerBody(s, |s|);
      assert !IsWhiteSpace(s[0]);
    }
  }

  /** An absent thumbnail container is valid; a present one obeys the
      `Container` rule. */
  lemma ValidThumbContainerIff(s: Option<string>)
    ensures ValidThumbContainer(s) <==> s.None? || IsContainerName(s.value)
  {
    if s.Some? {
      ValidContainerIff(s.value);
      if ValidThumbContainer(s) {
        assert s.value != "";
        assert ContainerBody(s.value, |s.value|);
        assert !IsWhiteSpace(s.value[0]);
      }
    }
  }

  /** The attributes on `Guid`: required, at most 200 characters and a whole
      match of the Guid pattern. */
  predicate ValidGuid(cls: CharClasses, g: string) {
    var m := MatchGuid(cls, g);
    && Required(Some(g))
    && StringLength(Some(g), 200, 0)
    && RegularExpression(Some(g), if m.Some? then Match(0, m.value.length) else NoMatch)
  }

  /** A valid Guid is exactly the path of well-formed groups, without the
      trailing newline that the pattern alone would let through; and every
      such path of at most 200 characters is a valid Guid. */
  lemma ValidGuidIff(cls: CharClasses, g: string)
    ensures ValidGuid(cls, g) <==>
      (|g| <= 200 && MatchGuid(cls, g).Some? && g == GuidPath(MatchGuid(cls, g).value.parts))
  {
    if MatchGuid(cls, g).Some? {
      GuidMatchInverse(cls, g);
      var m := MatchGuid(cls, g).value;
      if g == GuidPath(m.parts) {
        assert g[0] == '/';
        assert !IsWhiteSpace(g[0]);
      } else {
        assert |g| == m.length + 1;
      }
    }
  }

  /** A Guid that ends in a newline still decodes, so it gets a link, while
      the model validation refuses it. */
  lemma NewlineGuidDecodesButIsInvalid(cls: CharClasses, p: GuidParts)
    requires DotNetLike(cls) && WellFormedParts(cls, p)
    ensures MatchGuid(cls, GuidPath(p) + "\n").Some?
    ensures !ValidGuid(cls, GuidPath(p) + "\n")
  {
    GuidRoundTrip(cls, p);
  }

  /** All the validation attributes of the model. */
  predicate ValidAttachment(cls: CharClasses, a: Attachment) {
    && Required(Some(a.file)) && StringLength(Some(a.file), 256, 0)
    && ValidGuid(cls, a.guid)
    && StringLength(a.description, 300, 0)
    && ValidContainer(a.container)
    && StringLength(a.thumbFile, 256, 0)
    && ValidThumbContainer(a.thumbContainer)
    && Required(Some(a.originalFilename)) && StringLength(Some(a.originalFilename), 256, 0)
    && Required(Some(a.mimeType)) && StringLength(Some(a.mimeType), 125, 0)
  }

  /** The length bounds a valid attachment respects. */
  lemma ValidAttachmentBounds(cls: CharClasses, a: Attachment)
    requires ValidAttachment(cls, a)
    ensures 1 <= |a.file| <= 256 && 1 <= |a.originalFilename| <= 256
    ensures 1 <= |a.mimeType| <= 125 && |a.guid| <= 200
    ensures a.description.Some? ==> |a.description.value| <= 300
    ensures a.thumbFile.Some? ==> |a.thumbFile.value| <= 256
    ensures IsContainerName(a.container)
    ensures a.thumbContainer.Some? ==> IsContainerName(a.thumbContainer.value)
  {
    ValidContainerIff(a.container);
    ValidThumbContainerIff(a.thumbContainer);
  }
}

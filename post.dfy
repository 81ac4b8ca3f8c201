/** The Post model: a CMS article with a date-partitioned URL. */
module Posts {
  import opened Wrappers
  import opened Text
  import opened DataAnnotations

  datatype PostStatus = Published | Draft | Deleted

  /** The calendar part of a `DateTime`; the time of day plays no role here. */
  datatype DateTime = DateTime(year: nat, month: nat, day: nat)

  /** The range a .NET `DateTime` keeps its components in. */
  predicate ValidDateTime(d: DateTime) {
    1 <= d.year <= 9999 && 1 <= d.month <= 12 && 1 <= d.day <= 31
  }

  datatype Post = Post(
    id: int,
    title: Option<string>,
    summary: Option<string>,
    content: Option<string>,
    slug: Option<string>,
    created: DateTime,
    published: Option<DateTime>,
    createdById: Option<string>,
    modified: Option<DateTime>,
    modifiedById: Option<string>,
    status: PostStatus,
    categoryIds: seq<int>,
    tagIds: seq<int>,
    featuredImageId: Option<int>,
    fixed: bool)

  /** `new Post { Title = …, Content = …, Slug = …, Created = … }`: every
      other property keeps its initializer or the default of its type. */
  function NewPost(title: string, content: string, slug: string, created: DateTime): (p: Post)
    ensures p.title == Some(title) && p.content == Some(content) && p.slug == Some(slug) && p.created == created
    ensures !p.fixed && p.categoryIds == [] && p.tagIds == []
    ensures p.status == Published
    ensures p.summary.None? && p.published.None? && p.modified.None? && p.featuredImageId.None?
  {
    Post(0, Some(title), None, Some(content), Some(slug), created, None, None, None, None,
         Published, [], [], None, false)
  }

  // ---------------------------------------------------------------------
  // The slug pattern `[A-Za-z0-9-]*` (not anchored)

  predicate SlugChar(c: char) {
    'A' <= c <= 'Z' || 'a' <= c <= 'z' || '0' <= c <= '9' || c == '-'
  }

  /** The length of the longest prefix of slug characters. */
  function SlugPrefixLength(s: string): (n: nat)
    ensures n <= |s|
    ensures forall i :: 0 <= i < n ==> SlugChar(s[i])
    ensures n < |s| ==> !SlugChar(s[n])
  {
    if s == [] || !SlugChar(s[0]) then 0 else 1 + SlugPrefixLength(s[1..])
  }

  /** `Regex.Match` with the slug pattern: the starred class matches at
      position 0 at once, greedily, possibly with length zero. */
  function SlugMatch(s: string): (r: RegexMatch)
    ensures r.Match? && r.index == 0 && r.length <= |s|
    ensures r.length == |s| <==> forall i :: 0 <= i < |s| ==> SlugChar(s[i])
  {
    Match(0, SlugPrefixLength(s))
  }

  /** The attributes on `Slug`: the pattern, at most 200 characters, required. */
  predicate ValidSlug(s: Option<string>) {
    && RegularExpression(s, if s.Some? then SlugMatch(s.value) else NoMatch)
    && StringLength(s, 200, 0)
    && Required(s)
  }

  /** Because `[RegularExpression]` wants the match to cover the whole
      string, a valid slug is 1 to 200 characters of [A-Za-z0-9-]. */
  lemma ValidSlugIff(s: Option<string>)
    ensures ValidSlug(s) <==>
      (s.Some? && 1 <= |s.value| <= 200 && forall i :: 0 <= i < |s.value| ==> SlugChar(s.value[i]))
  {
    if s.Some? && 1 <= |s.value| <= 200 && forall i :: 0 <= i < |s.value| ==> SlugChar(s.value[i]) {
      assert !IsWhiteSpace(s.value[0]);
    }
  }

  /** All the validation attributes of the model. */
  predicate ValidPost(p: Post) {
    && Required(p.title) && StringLength(p.title, 200, 0)
    && StringLength(p.summary, 300, 0)
    && Required(p.content)
    && ValidSlug(p.slug)
  }

  lemma ValidPostBounds(p: Post)
    requires ValidPost(p)
    ensures p.title.Some? && 1 <= |p.title.value| <= 200
    ensures p.summary.Some? ==> |p.summary.value| <= 300
    ensures p.content.Some? && |p.content.value| >= 1
    ensures p.slug.Some? && 1 <= |p.slug.value| <= 200
  {
  }
}

/**
 * The site helpers: the role hierarchy below a role, and the absolute URLs
 * of the category, post and upload pages. Link generation is a parameter
 * (`UrlHelper`): this model does not know how the routing tables turn route
 * values into a link, only what route values are asked for and whether the
 * answer is an absolute URL.
 */
module InstitutoAdeccoUtils {
  import opened Wrappers
  import opened Text
  import opened Globals
  import opened Categories
  import opened Posts
  import opened Attachments
  import opened ApplicationUsers
  import opened UserUtils

  // ---------------------------------------------------------------------
  // Subordinated roles

  /** `List.Remove`: removes the first occurrence of `x`, if any, and keeps
      the order of the rest. */
  function RemoveFirst(s: seq<string>, x: string): (r: seq<string>)
    ensures x !in s ==> r == s
    ensures x in s ==> r == s[..FirstIndex(s, x)] + s[FirstIndex(s, x) + 1..]
    ensures x in s ==> |r| == |s| - 1 && multiset(r) == multiset(s) - multiset{x}
  {
    if s == [] then []
    else if s[0] == x then
      RemoveFirstHead(s, x);
      s[1..]
    else
      var t := RemoveFirst(s[1..], x);
      RemoveFirstKeepHead(s, x, t);
      [s[0]] + t
  }

  /** When the head is `x`, dropping the head removes the first `x`. */
  lemma RemoveFirstHead(s: seq<string>, x: string)
    requires s != [] && s[0] == x
    ensures FirstIndex(s, x) == 0 && s[1..] == s[..FirstIndex(s, x)] + s[FirstIndex(s, x) + 1..]
    ensures |s[1..]| == |s| - 1 && multiset(s[1..]) == multiset(s) - multiset{x}
  {
    RemoveAtCount(s, 0);
    assert s[..0] + s[1..] == s[1..];
  }

  /** Keeping a head that is not `x` in front of the removal from the tail
      removes the first `x` of the whole list. */
  lemma RemoveFirstKeepHead(s: seq<string>, x: string, t: seq<string>)
    requires s != [] && s[0] != x
    requires x !in s[1..] ==> t == s[1..]
    requires x in s[1..] ==> t == s[1..][..FirstIndex(s[1..], x)] + s[1..][FirstIndex(s[1..], x) + 1..]
    ensures x !in s ==> [s[0]] + t == s
    ensures x in s ==> [s[0]] + t == s[..FirstIndex(s, x)] + s[FirstIndex(s, x) + 1..]
    ensures x in s ==> |[s[0]] + t| == |s| - 1 && multiset([s[0]] + t) == multiset(s) - multiset{x}
  {
    assert s == [s[0]] + s[1..];
    if x in s[1..] {
      RemoveFirstCons(s, x, t);
      RemoveAtCount(s, FirstIndex(s, x));
    }
  }

  /** `List.IndexOf`: the position of the first occurrence of `x`. */
  function FirstIndex(s: seq<string>, x: string): (i: nat)
    requires x in s
    ensures i < |s| && s[i] == x && x !in s[..i]
  {
    if s[0] == x then 0
    else
      var i := FirstIndex(s[1..], x);
      assert s[..i + 1] == [s[0]] + s[1..][..i];
      i + 1
  }

  /** Removing the element at `i` takes one copy of it out of the multiset. */
  lemma RemoveAtCount(s: seq<string>, i: nat)
    requires i < |s|
    ensures |s[..i] + s[i + 1..]| == |s| - 1
    ensures multiset(s[..i] + s[i + 1..]) == multiset(s) - multiset{s[i]}
  {
    assert s == s[..i] + [s[i]] + s[i + 1..];
  }

  /** A first occurrence past the head is one place further on in `s`. */
  lemma RemoveFirstCons(s: seq<string>, x: string, t: seq<string>)
    requires s != [] && s[0] != x && x in s[1..]
    requires t == s[1..][..FirstIndex(s[1..], x)] + s[1..][FirstIndex(s[1..], x) + 1..]
    ensures [s[0]] + t == s[..FirstIndex(s, x)] + s[FirstIndex(s, x) + 1..]
  {
    var i := FirstIndex(s[1..], x);
    assert FirstIndex(s, x) == i + 1;
    assert s[..i + 1] == [s[0]] + s[1..][..i];
    assert s[i + 2..] == s[1..][i + 1..];
  }

  /** `GetSubordinatedRoles(myRole)`: the roles below `myRole`, computed by
      removing the roles from the top down and stopping at `myRole`. */
  method GetSubordinatedRoles(myRole: string) returns (allRoles: seq<string>)
    ensures allRoles == Subordinates(myRole)
    ensures forall x :: x in allRoles <==> Outranks(myRole, x)
    ensures RoleAdmin !in allRoles && myRole !in allRoles
    ensures exists k :: 0 <= k <= |Roles| && allRoles == Roles[k..]
  {
    RolesDistinct();
    SubordinatesValues(myRole);
    assert Roles[3..] == [];
    allRoles := Roles;
    allRoles := RemoveFirst(allRoles, RoleAdmin);
    assert allRoles == Roles[1..];
    if myRole == RoleAdmin {
      return;
    }
    allRoles := RemoveFirst(allRoles, RoleSupervisor);
    assert allRoles == Roles[2..];
    if myRole == RoleSupervisor {
      return;
    }
    allRoles := RemoveFirst(allRoles, RoleCompanyUser);
    assert allRoles == Roles[3..];
  }

  /** `MySubordinatedRolesAsync`: the roles below the first role of the
      current user; a user without roles has none below. `currentId` is the
      user id the session holds. */
  method MySubordinatedRoles(store: UserStore, currentId: Option<string>)
    returns (r: Result<seq<string>, UserError>)
    ensures GetCurrentUser(store, currentId).Err? ==> r == Err(GetCurrentUser(store, currentId).error)
    ensures GetCurrentUser(store, currentId).Ok? ==>
      var roles := RolesOf(store, GetCurrentUser(store, currentId).value.id);
      r == Ok(if roles == [] then [] else Subordinates(roles[0]))
  {
    var user := GetCurrentUser(store, currentId);
    if user.Err? {
      return Err(user.error);
    }
    var roles := RolesOf(store, user.value.id);
    if roles == [] {
      return Ok([]);
    }
    var below := GetSubordinatedRoles(roles[0]);
    r := Ok(below);
  }

  // ---------------------------------------------------------------------
  // Links

  datatype UrlError =
    | CategoryNotFound(id: int)   // `FirstAsync` found no category with the parent id
    | ExcessiveDepth              // more than 9 levels below the root category
    | NotAbsolute                 // the generated link is not an absolute URL

  /** The route values handed to `PageLink`. */
  datatype PageRoute =
    /** "/Categoria": slot 0 is `Category`, slot i (1 to 9) `SubCategory`i. */
    | CategoryPage(slots: seq<Option<string>>)
    /** "/Post": `Year`, `Month`, `Day` and `Slug`. */
    | PostPage(year: string, month: string, day: string, slug: Option<string>)
    /** "/Uploads": `Year`, `Month` and `Path`. */
    | UploadsPage(year: string, month: string, path: string)

  /** `IUrlHelper.PageLink`, which may give no link, and the test
      `Uri.TryCreate(link, UriKind.Absolute, out _)`. */
  datatype UrlHelper = UrlHelper(pageLink: PageRoute -> Option<string>, isAbsolute: string -> bool)

  /** The link of a route, which must be an absolute URL; a missing link
      is not absolute. In `GetPostUrlAsync` the `?.` also makes a null
      helper give a missing link; the other two URL methods call the helper
      directly. */
  function AbsoluteLink(url: UrlHelper, route: PageRoute): (r: Result<string, UrlError>)
    ensures r.Ok? ==> url.pageLink(route) == Some(r.value) && url.isAbsolute(r.value)
    ensures url.pageLink(route).Some? && url.isAbsolute(url.pageLink(route).value)
      ==> r == Ok(url.pageLink(route).value)
    ensures r.Err? ==> r.error == NotAbsolute
  {
    match url.pageLink(route)
    case Some(link) => if url.isAbsolute(link) then Ok(link) else Err(NotAbsolute)
    case None => Err(NotAbsolute)
  }

  // ---------------------------------------------------------------------
  // The category URL

  /** The walk from a category up to its root: `Reached` with the chain,
      leaf first; `Missing` when a parent id names no category; `Unbounded`
      when the fuel ran out first. */
  datatype Climb = Reached(chain: seq<Category>) | Missing(id: int) | Unbounded

  function Prepend(pre: seq<Category>, w: Climb): Climb {
    match w
    case Reached(chain) => Reached(pre + chain)
    case _ => w
  }

  /** The walk of the `while (category.ParentId != null)` loop, taking at
      most `fuel` steps up. */
  function ClimbFrom(table: CategoryTable, c: Category, fuel: nat): Climb
    decreases fuel
  {
    match c.parentId
    case None => Reached([c])
    case Some(pid) =>
      if fuel == 0 then Unbounded
      else if pid !in table then Missing(pid)
      else Prepend([c], ClimbFrom(table, table[pid], fuel - 1))
  }

  /** More fuel does not change a walk that ended. */
  lemma {:induction false} ClimbFuel(table: CategoryTable, c: Category, f: nat, g: nat)
    requires f <= g && !ClimbFrom(table, c, f).Unbounded?
    ensures ClimbFrom(table, c, g) == ClimbFrom(table, c, f)
    decreases f
  {
    match c.parentId
    case None =>
    case Some(pid) =>
      if pid in table {
        ClimbFuel(table, table[pid], f - 1, g - 1);
      }
  }

  /** The walk up from `c` ends: the parent links reach a root or a missing
      category without running into a cycle. */
  ghost predicate ClimbEnds(table: CategoryTable, c: Category) {
    exists fuel: nat :: !ClimbFrom(table, c, fuel).Unbounded?
  }

  /** The walk up from `c`, when it ends. */
  ghost function Walk(table: CategoryTable, c: Category): Climb
    requires ClimbEnds(table, c)
  {
    var fuel: nat :| !ClimbFrom(table, c, fuel).Unbounded?;
    ClimbFrom(table, c, fuel)
  }

  lemma WalkIsClimb(table: CategoryTable, c: Category, fuel: nat)
    requires !ClimbFrom(table, c, fuel).Unbounded?
    ensures ClimbEnds(table, c) && Walk(table, c) == ClimbFrom(table, c, fuel)
  {
    var f0: nat :| !ClimbFrom(table, c, f0).Unbounded? && Walk(table, c) == ClimbFrom(table, c, f0);
    var m := if f0 < fuel then fuel else f0;
    ClimbFuel(table, c, f0, m);
    ClimbFuel(table, c, fuel, m);
  }

  /** The chain of a walk that reached a root starts at the category, ends at
      a root, and each element is the parent of the one before it. */
  lemma {:induction false} ClimbChain(table: CategoryTable, c: Category, fuel: nat)
    requires ClimbFrom(table, c, fuel).Reached?
    ensures var ch := ClimbFrom(table, c, fuel).chain;
      && |ch| >= 1 && ch[0] == c && IsRoot(ch[|ch| - 1])
      && forall i :: 0 <= i < |ch| - 1 ==>
           ch[i].parentId.Some? && ch[i].parentId.value in table && table[ch[i].parentId.value] == ch[i + 1]
    decreases fuel
  {
    match c.parentId
    case None =>
    case Some(pid) =>
      ClimbChain(table, table[pid], fuel - 1);
      var rest := ClimbFrom(table, table[pid], fuel - 1).chain;
      var ch := ClimbFrom(table, c, fuel).chain;
      assert ch == [c] + rest;
      forall i | 1 <= i < |ch| - 1
        ensures ch[i].parentId.Some? && ch[i].parentId.value in table && table[ch[i].parentId.value] == ch[i + 1]
      {
        assert ch[i] == rest[i - 1] && ch[i + 1] == rest[i];
      }
  }

  /** In a table keyed by id, each category of the chain after the first is
      the one whose `Id` is the `ParentId` of the category before it. */
  lemma ChainIds(table: CategoryTable, c: Category, fuel: nat)
    requires KeyedById(table) && ClimbFrom(table, c, fuel).Reached?
    ensures var ch := ClimbFrom(table, c, fuel).chain;
      forall i :: 0 <= i < |ch| - 1 ==> ch[i].parentId == Some(ch[i + 1].id)
  {
    ClimbChain(table, c, fuel);
    var ch := ClimbFrom(table, c, fuel).chain;
    forall i | 0 <= i < |ch| - 1 ensures ch[i].parentId == Some(ch[i + 1].id) {
      var pid := ch[i].parentId.value;
      assert table[pid] == ch[i + 1] && table[pid].id == pid;
    }
  }

  /** A walk that hit a missing category names a parent id outside the table. */
  lemma {:induction false} ClimbMissing(table: CategoryTable, c: Category, fuel: nat)
    requires ClimbFrom(table, c, fuel).Missing?
    ensures ClimbFrom(table, c, fuel).id !in table
    decreases fuel
  {
    match c.parentId
    case None =>
    case Some(pid) =>
      if pid in table {
        ClimbMissing(table, table[pid], fuel - 1);
      }
  }

  /** When every parent id resolves, the walk never hits a missing category. */
  lemma {:induction false} ResolvedClimbNotMissing(table: CategoryTable, c: Category, fuel: nat)
    requires ParentsResolve(table)
    requires c.parentId.Some? ==> c.parentId.value in table
    ensures !ClimbFrom(table, c, fuel).Missing?
    decreases fuel
  {
    match c.parentId
    case None =>
    case Some(pid) =>
      if fuel > 0 {
        ResolvedClimbNotMissing(table, table[pid], fuel - 1);
      }
  }

  function Slugs(chain: seq<Category>): (r: seq<string>)
    ensures |r| == |chain| && forall i :: 0 <= i < |chain| ==> r[i] == chain[i].slug
  {
    seq(|chain|, i requires 0 <= i < |chain| => chain[i].slug)
  }

  function Reverse<T>(s: seq<T>): (r: seq<T>)
    ensures |r| == |s| && forall i :: 0 <= i < |s| ==> r[i] == s[|s| - 1 - i]
  {
    seq(|s|, i requires 0 <= i < |s| => s[|s| - 1 - i])
  }

  /** The route slot `k` for the slugs `path`, root first. */
  function SlotAt(path: seq<string>, k: nat): Option<string> {
    if k < |path| then Some(path[k]) else None
  }

  /** The ten route slots: the slugs root first, then nulls. */
  function RouteSlots(path: seq<string>): seq<Option<string>> {
    [SlotAt(path, 0), SlotAt(path, 1), SlotAt(path, 2), SlotAt(path, 3), SlotAt(path, 4),
     SlotAt(path, 5), SlotAt(path, 6), SlotAt(path, 7), SlotAt(path, 8), SlotAt(path, 9)]
  }

  /** The outcome of `GetCategoryUrlAsync` for a walk that ended. */
  function CategoryUrlOf(url: UrlHelper, w: Climb): Result<string, UrlError>
    requires !w.Unbounded?
  {
    match w
    case Missing(id) => Err(CategoryNotFound(id))
    case Reached(chain) =>
      var path := Reverse(Slugs(chain));
      if |path| > 10 then Err(ExcessiveDepth)
      else AbsoluteLink(url, CategoryPage(RouteSlots(path)))
  }

  /** `slots` are the route slots of `chain` (leaf first): its slugs root
      first, then nulls up to ten. */
  predicate SlotsOfChain(slots: seq<Option<string>>, chain: seq<Category>) {
    && |slots| == 10
    && (forall i :: 0 <= i < |chain| && i < 10 ==> slots[i] == Some(chain[|chain| - 1 - i].slug))
    && (forall i :: |chain| <= i < 10 ==> slots[i] == None)
  }

  /** The slots of a chain at most ten long: the slugs root first, the
      chain's first category last, then nulls. */
  lemma ChainSlots(chain: seq<Category>)
    requires 1 <= |chain| <= 10
    ensures SlotsOfChain(RouteSlots(Reverse(Slugs(chain))), chain)
  {
    var path := Reverse(Slugs(chain));
    var slots := RouteSlots(path);
    forall i | 0 <= i < 10
      ensures slots[i] == SlotAt(path, i)
    {
    }
    forall i | 0 <= i < |chain|
      ensures slots[i] == Some(chain[|chain| - 1 - i].slug)
    {
      assert path[i] == chain[|chain| - 1 - i].slug;
    }
  }

  /** A missing parent throws at the lookup, naming an id outside the table. */
  lemma CategoryUrlMissing(table: CategoryTable, c: Category, url: UrlHelper, fuel: nat)
    requires ClimbFrom(table, c, fuel).Missing?
    ensures ClimbFrom(table, c, fuel).id !in table
    ensures CategoryUrlOf(url, ClimbFrom(table, c, fuel)) == Err(CategoryNotFound(ClimbFrom(table, c, fuel).id))
  {
    ClimbMissing(table, c, fuel);
  }

  /** A chain of more than ten categories throws. */
  lemma CategoryUrlTooDeep(table: CategoryTable, c: Category, url: UrlHelper, fuel: nat)
    requires ClimbFrom(table, c, fuel).Reached? && |ClimbFrom(table, c, fuel).chain| > 10
    ensures CategoryUrlOf(url, ClimbFrom(table, c, fuel)) == Err(ExcessiveDepth)
  {
  }

  /** A chain of at most ten categories fills the slots root first, the
      category itself last, leaves the remaining slots null, and asks for the
      link of the category page with those slots. */
  lemma CategoryUrlSlots(table: CategoryTable, c: Category, url: UrlHelper, fuel: nat)
    requires ClimbFrom(table, c, fuel).Reached? && |ClimbFrom(table, c, fuel).chain| <= 10
    ensures var ch := ClimbFrom(table, c, fuel).chain;
      exists slots ::
        && CategoryUrlOf(url, ClimbFrom(table, c, fuel)) == AbsoluteLink(url, CategoryPage(slots))
        && SlotsOfChain(slots, ch)
        && slots[0] == Some(ch[|ch| - 1].slug)
        && slots[|ch| - 1] == Some(c.slug)
  {
    var ch := ClimbFrom(table, c, fuel).chain;
    assert ch[0] == c;
    var slots := RouteSlots(Reverse(Slugs(ch)));
    ChainSlots(ch);
    assert slots[0] == Some(ch[|ch| - 1].slug) && slots[|ch| - 1] == Some(ch[0].slug);
    assert CategoryUrlOf(url, ClimbFrom(table, c, fuel)) == AbsoluteLink(url, CategoryPage(slots));
  }

  /** With unique slugs the route tells categories apart: two categories of
      the table whose walks give the same slugs, root first, are the same
      category. */
  lemma CategoryPathIdentifies(table: CategoryTable, c: Category, d: Category, fc: nat, fd: nat)
    requires SlugsUnique(table)
    requires c.id in table && table[c.id] == c && d.id in table && table[d.id] == d
    requires ClimbFrom(table, c, fc).Reached? && ClimbFrom(table, d, fd).Reached?
    requires Reverse(Slugs(ClimbFrom(table, c, fc).chain)) == Reverse(Slugs(ClimbFrom(table, d, fd).chain))
    ensures c == d
  {
    ClimbChain(table, c, fc);
    ClimbChain(table, d, fd);
    var pc := Reverse(Slugs(ClimbFrom(table, c, fc).chain));
    assert pc[|pc| - 1] == c.slug;
  }

  /** A root "noticias" with a child "empleo": the child's page gets the
      root slug in `Category`, its own in `SubCategory1` and null after. */
  lemma CategoryUrlExample(url: UrlHelper)
    ensures var root := Category(1, "Noticias", None, "noticias", None);
      var child := Category(2, "Empleo", None, "empleo", Some(1));
      var table := map[1 := root, 2 := child];
      && ClimbEnds(table, child)
      && CategoryUrlOf(url, Walk(table, child))
         == AbsoluteLink(url, CategoryPage([Some("noticias"), Some("empleo"), None, None, None, None, None, None, None, None]))
  {
    var root := Category(1, "Noticias", None, "noticias", None);
    var child := Category(2, "Empleo", None, "empleo", Some(1));
    var table := map[1 := root, 2 := child];
    assert ClimbFrom(table, child, 1) == Reached([child, root]);
    WalkIsClimb(table, child, 1);
    assert Reverse(Slugs([child, root])) == ["noticias", "empleo"];
  }

  /** The slug stack of `GetCategoryUrlAsync`. */
  class SlugStack {
    /** The slugs, bottom first. */
    var items: seq<string>

    constructor ()
      ensures items == []
    {
      items := [];
    }

    function Count(): nat
      reads this
    {
      |items|
    }

    method Push(slug: string)
      modifies this
      ensures items == old(items) + [slug]
    {
      items := items + [slug];
    }

    method Pop() returns (top: string)
      requires items != []
      modifies this
      ensures top == old(items)[|old(items)| - 1]
      ensures items == old(items)[..|old(items)| - 1]
    {
      top := items[|items| - 1];
      items := items[..|items| - 1];
    }

    /** `stack.Count != 0 ? stack.Pop() : null`. */
    method PopOrNull() returns (top: Option<string>)
      modifies this
      ensures old(items) == [] ==> top == None && items == []
      ensures old(items) != [] ==> top == Some(old(items)[|old(items)| - 1]) && items == old(items)[..|old(items)| - 1]
    {
      if Count() != 0 {
        var slug := Pop();
        top := Some(slug);
      } else {
        top := None;
      }
    }
  }

  /** The stack after `k` pops from `full`. */
  function Popped(full: seq<string>, k: nat): seq<string> {
    if k <= |full| then full[..|full| - k] else []
  }

  /** The slug the pop number k (from 0) takes off `full`, if any. */
  function PoppedSlot(full: seq<string>, k: nat): Option<string> {
    if k < |full| then Some(full[|full| - 1 - k]) else None
  }

  /** One `PopOrNull` on the stack left after k pops takes pop number k. */
  lemma PoppedStep(full: seq<string>, k: nat, before: seq<string>, after: seq<string>, top: Option<string>)
    requires before == Popped(full, k)
    requires before == [] ==> top == None && after == []
    requires before != [] ==> top == Some(before[|before| - 1]) && after == before[..|before| - 1]
    ensures top == PoppedSlot(full, k) && after == Popped(full, k + 1)
  {
  }

  /** What ten pops from `full` take off: the top, then the next nine or
      null once the stack is empty. */
  function TenPops(full: seq<string>): seq<Option<string>>
    requires full != []
  {
    [Some(full[|full| - 1]), PoppedSlot(full, 1), PoppedSlot(full, 2), PoppedSlot(full, 3), PoppedSlot(full, 4),
     PoppedSlot(full, 5), PoppedSlot(full, 6), PoppedSlot(full, 7), PoppedSlot(full, 8), PoppedSlot(full, 9)]
  }

  /** Popping ten times yields the route slots of the reversed stack. */
  lemma PoppedSlots(full: seq<string>)
    requires full != []
    ensures RouteSlots(Reverse(full)) == TenPops(full)
  {
  }

  /** One step of the walk up, seen from the category it starts at. */
  lemma ClimbStep(table: CategoryTable, walk: Climb, visited: seq<Category>, current: Category, f: nat)
    requires current.parentId.Some? && current.parentId.value in table
    requires !ClimbFrom(table, current, f).Unbounded?
    requires walk == Prepend(visited, ClimbFrom(table, current, f))
    ensures f >= 1
    ensures !ClimbFrom(table, table[current.parentId.value], f - 1).Unbounded?
    ensures walk == Prepend(visited + [current], ClimbFrom(table, table[current.parentId.value], f - 1))
  {
    var rest := ClimbFrom(table, table[current.parentId.value], f - 1);
    match rest
    case Reached(ch) => assert visited + ([current] + ch) == visited + [current] + ch;
    case _ =>
  }

  lemma SlugsSnoc(chain: seq<Category>, c: Category)
    ensures Slugs(chain + [c]) == Slugs(chain) + [c.slug]
  {
  }

  /** The first half of `GetCategoryUrlAsync`: pushes the slug of the
      category and of each ancestor in turn; a parent id that names no
      category throws. */
  method PushAncestors(table: CategoryTable, category: Category, stack: SlugStack)
    returns (missing: Option<int>)
    requires ClimbEnds(table, category)
    modifies stack
    ensures missing.Some? ==> Walk(table, category) == Missing(missing.value)
    ensures missing.None? ==>
      && Walk(table, category).Reached?
      && Walk(table, category).chain != []
      && stack.items == old(stack.items) + Slugs(Walk(table, category).chain)
  {
    ghost var fuel: nat :| !ClimbFrom(table, category, fuel).Unbounded?;
    WalkIsClimb(table, category, fuel);
    ghost var walk := ClimbFrom(table, category, fuel);
    ghost var bottom := stack.items;
    stack.Push(category.slug);
    var current := category;
    ghost var visited: seq<Category> := [];
    assert walk == Prepend(visited, ClimbFrom(table, current, fuel));
    ghost var f := fuel;
    while current.parentId.Some?
      invariant !ClimbFrom(table, current, f).Unbounded?
      invariant walk == Prepend(visited, ClimbFrom(table, current, f))
      invariant stack.items == bottom + Slugs(visited + [current])
      decreases f
    {
      var pid := current.parentId.value;
      if pid !in table {
        return Some(pid);
      }
      ClimbStep(table, walk, visited, current, f);
      visited := visited + [current];
      current := table[pid];
      f := f - 1;
      stack.Push(current.slug);
      SlugsSnoc(visited, current);
    }
    missing := None;
  }

  /** The second half of `GetCategoryUrlAsync`: the root slug is popped into
      `Category`, then up to nine more slugs into `SubCategory1` to
      `SubCategory9`, null once the stack is empty. */
  method PopSlots(stack: SlugStack) returns (values: seq<Option<string>>)
    requires stack.items != []
    modifies stack
    ensures values == TenPops(old(stack.items))
    ensures stack.items == Popped(old(stack.items), 10)
  {
    ghost var full := stack.items;
    var root := stack.Pop();
    assert stack.items == Popped(full, 1);
    ghost var before := stack.items;
    var sub1 := stack.PopOrNull();
    PoppedStep(full, 1, before, stack.items, sub1);
    before := stack.items;
    var sub2 := stack.PopOrNull();
    PoppedStep(full, 2, before, stack.items, sub2);
    before := stack.items;
    var sub3 := stack.PopOrNull();
    PoppedStep(full, 3, before, stack.items, sub3);
    before := stack.items;
    var sub4 := stack.PopOrNull();
    PoppedStep(full, 4, before, stack.items, sub4);
    before := stack.items;
    var sub5 := stack.PopOrNull();
    PoppedStep(full, 5, before, stack.items, sub5);
    before := stack.items;
    var sub6 := stack.PopOrNull();
    PoppedStep(full, 6, before, stack.items, sub6);
    before := stack.items;
    var sub7 := stack.PopOrNull();
    PoppedStep(full, 7, before, stack.items, sub7);
    before := stack.items;
    var sub8 := stack.PopOrNull();
    PoppedStep(full, 8, before, stack.items, sub8);
    before := stack.items;
    var sub9 := stack.PopOrNull();
    PoppedStep(full, 9, before, stack.items, sub9);
    before := stack.items;
    values := [Some(root), sub1, sub2, sub3, sub4, sub5, sub6, sub7, sub8, sub9];
  }

  /** What is left after the ten pops decides the outcome: a non-empty rest
      means a chain deeper than ten, an empty one the link of the popped slots. */
  lemma CategoryUrlOfPops(url: UrlHelper, chain: seq<Category>, values: seq<Option<string>>, rest: seq<string>)
    requires chain != []
    requires values == TenPops(Slugs(chain)) && rest == Popped(Slugs(chain), 10)
    ensures |rest| > 0 ==> CategoryUrlOf(url, Reached(chain)) == Err(ExcessiveDepth)
    ensures |rest| == 0 ==> CategoryUrlOf(url, Reached(chain)) == AbsoluteLink(url, CategoryPage(values))
  {
    PoppedSlots(Slugs(chain));
  }

  /** `GetCategoryUrlAsync(category, urlHelper)`: the slugs from the root down
      to the category fill the route slots of the category page, whose link
      must be absolute. `table` is the category table, by id. */
  method GetCategoryUrl(table: CategoryTable, category: Category, url: UrlHelper)
    returns (r: Result<string, UrlError>)
    requires ClimbEnds(table, category)
    ensures r == CategoryUrlOf(url, Walk(table, category))
  {
    var stack := new SlugStack();
    var missing := PushAncestors(table, category, stack);
    if missing.Some? {
      return Err(CategoryNotFound(missing.value));
    }
    ghost var chain := Walk(table, category).chain;
    assert stack.items == Slugs(chain);
    var values := PopSlots(stack);
    CategoryUrlOfPops(url, chain, values, stack.items);
    if stack.Count() > 0 {
      return Err(ExcessiveDepth);
    }
    r := AbsoluteLink(url, CategoryPage(values));
  }

  // ---------------------------------------------------------------------
  // The post URL

  /** The route values of a post: its creation date as four, two and two
      digits, and its slug. */
  function PostRoute(p: Post): (r: PageRoute)
    ensures r.PostPage? && r.slug == p.slug
    ensures |r.year| >= 4 && |r.month| >= 2 && |r.day| >= 2
    ensures AllAsciiDigits(r.year) && AllAsciiDigits(r.month) && AllAsciiDigits(r.day)
  {
    PostPage(ZeroPadded(p.created.year, 4), ZeroPadded(p.created.month, 2),
             ZeroPadded(p.created.day, 2), p.slug)
  }

  /** `GetPostUrlAsync(post, urlHelper)`. */
  function GetPostUrl(p: Post, url: UrlHelper): (r: Result<string, UrlError>)
    ensures r.Ok? ==> url.pageLink(PostRoute(p)) == Some(r.value) && url.isAbsolute(r.value)
    ensures url.pageLink(PostRoute(p)).Some? && url.isAbsolute(url.pageLink(PostRoute(p)).value)
      ==> r == Ok(url.pageLink(PostRoute(p)).value)
    ensures r.Err? ==> r == Err(NotAbsolute)
  {
    AbsoluteLink(url, PostRoute(p))
  }

  /** For a date in the `DateTime` range the route holds exactly four, two
      and two digits, which read back as the year, month and day. */
  lemma PostRouteDigits(p: Post)
    requires ValidDateTime(p.created)
    ensures var r := PostRoute(p);
      && |r.year| == 4 && |r.month| == 2 && |r.day| == 2
      && AllAsciiDigits(r.year) && AllAsciiDigits(r.month) && AllAsciiDigits(r.day)
      && ParseDecimal(r.year) == p.created.year
      && ParseDecimal(r.month) == p.created.month
      && ParseDecimal(r.day) == p.created.day
      && r.slug == p.slug
  {
    assert Pow10(4) == 10000 && Pow10(2) == 100;
    ZeroPaddedRoundTrip(p.created.year, 4);
    ZeroPaddedRoundTrip(p.created.month, 2);
    ZeroPaddedRoundTrip(p.created.day, 2);
  }

  /** A post created on 5 January 2023 links with "2023", "01" and "05". */
  lemma PostRouteExample(p: Post)
    requires p.created == DateTime(2023, 1, 5)
    ensures PostRoute(p).year == "2023" && PostRoute(p).month == "01" && PostRoute(p).day == "05"
  {
    assert ToDecimal(2023) == "2023" by {
      assert ToDecimal(2) == "2" && ToDecimal(20) == "20" && ToDecimal(202) == "202";
    }
    assert ZeroPadded(2023, 4) == "2023" by {
      assert Zeros(0) == [];
    }
    assert ZeroPadded(1, 2) == "01" by {
      assert ToDecimal(1) == "1" && Zeros(1) == "0";
    }
    assert ZeroPadded(5, 2) == "05" by {
      assert ToDecimal(5) == "5" && Zeros(1) == "0";
    }
  }

  // ---------------------------------------------------------------------
  // The attachment URL

  /** `GetAttachmentUrlAsync(attachment, urlHelper)`: no link (null) when the
      Guid does not match the pattern; otherwise the link of the uploads
      page for the matched year, month and file path. */
  function GetAttachmentUrl(cls: CharClasses, a: Attachment, url: UrlHelper): (r: Result<Option<string>, UrlError>)
    ensures MatchGuid(cls, a.guid).None? <==> r == Ok(None)
  {
    match MatchGuid(cls, a.guid)
    case None => Ok(None)
    case Some(m) =>
      match AbsoluteLink(url, UploadsPage(m.parts.year, m.parts.month, m.parts.file))
      case Ok(link) => Ok(Some(link))
      case Err(e) => Err(e)
  }

  /** An attachment whose Guid is the path of well-formed parts links to the
      uploads page of exactly those parts. */
  lemma AttachmentUrlOfPath(cls: CharClasses, a: Attachment, url: UrlHelper, p: GuidParts)
    requires DotNetLike(cls) && WellFormedParts(cls, p) && a.guid == GuidPath(p)
    ensures var link := url.pageLink(UploadsPage(p.year, p.month, p.file));
      && (link.Some? && url.isAbsolute(link.value) ==> GetAttachmentUrl(cls, a, url) == Ok(Some(link.value)))
      && (link.None? || !url.isAbsolute(link.value) ==> GetAttachmentUrl(cls, a, url) == Err(NotAbsolute))
  {
    GuidRoundTrip(cls, p);
  }

  /** A Guid that is such a path followed by one "\n" still matches, since
      `$` matches before a final newline: the link is asked for with the same
      parts, the newline left out. */
  lemma AttachmentUrlOfNewlinePath(cls: CharClasses, a: Attachment, url: UrlHelper, p: GuidParts)
    requires DotNetLike(cls) && WellFormedParts(cls, p) && a.guid == GuidPath(p) + "\n"
    ensures var link := url.pageLink(UploadsPage(p.year, p.month, p.file));
      && (link.Some? && url.isAbsolute(link.value) ==> GetAttachmentUrl(cls, a, url) == Ok(Some(link.value)))
      && (link.None? || !url.isAbsolute(link.value) ==> GetAttachmentUrl(cls, a, url) == Err(NotAbsolute))
  {
    GuidRoundTrip(cls, p);
  }

  /** "/uploads/2024/03/photo.jpg\n" asks for the uploads page of 2024, 03
      and "photo.jpg". */
  lemma AttachmentUrlNewlineExample(cls: CharClasses, a: Attachment, url: UrlHelper)
    requires DotNetLike(cls) && a.guid == "/uploads/2024/03/photo.jpg\n"
    ensures var link := url.pageLink(UploadsPage("2024", "03", "photo.jpg"));
      link.Some? && url.isAbsolute(link.value) ==> GetAttachmentUrl(cls, a, url) == Ok(Some(link.value))
  {
    var p := PhotoParts();
    PhotoPartsWellFormed(cls);
    assert GuidPath(p) + "\n" == "/uploads/2024/03/photo.jpg\n";
    AttachmentUrlOfNewlinePath(cls, a, url, p);
  }
}

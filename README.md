# InstitutoAdecco core rules in Dafny

InstitutoAdecco is an ASP.NET site of posts, categories and file uploads with three roles: Administrator, Supervisor and Company. This project models its role hierarchy, the page URLs it builds for categories, posts and uploads, and its user and role rules. It also models the validation attributes on its data models, and proves what each of these promises.

The modules follow the source:
- `Globals` covers the role constants, the order of `Roles` and the upload Guid pattern.
- `InstitutoAdeccoUtils` covers the subordinated roles and the category, post and attachment URLs.
- `UserUtils` covers the admin check, the user list filters, lockout, the sorted role list, role creation and the password checks.
- `Attachments`, `Posts`, `Categories` and `ApplicationUsers` hold one datatype per model, with its field rules.
- `DataAnnotations` holds the `[Required]`, `[StringLength]` and `[RegularExpression]` semantics.
- `Text` covers .NET white space, `Trim` and zero-padded number formatting.
- `Sorting` holds an insertion sort that stands for LINQ ordering.
- `Wrappers` holds `Option` and `Result`.

Some collaborators become parameters:
- The URL builder (`IUrlHelper.PageLink` together with `Uri.TryCreate`) is a pair of function values.
- The password hasher and the password validators are function values.
- The regex classes `\d` and `\w` are function values. They are constrained only by the facts the proofs need: ASCII digits are digits; ASCII letters, digits and `_` are word characters; `/` is neither; `\n` is not a word character.
- The clock is a `now` parameter.
- The identity store is a value holding the users table and each user's roles.
- The category table is a map from id to category.

Two behaviours of the code that its signatures and comments do not make obvious:
- `GetPostUrlAsync` throws for a null `urlHelper`, even though it uses `?.`. The null link is not an absolute URL.
- The Guid pattern accepts one trailing newline, because of how .NET treats `$`.

## Model

| member | source | states |
|---|---|---|
| Globals.RolesDistinct | InstitutoAdecco/Globals.cs:11-14 | `Roles` has three entries, and the three role names are pairwise distinct |
| Globals.Rank | InstitutoAdecco/Globals.cs:14 | a name has a rank exactly when it is in `Roles`, and the rank is its position there |
| Globals.KeepOutranked | InstitutoAdecco/Globals.cs:14 | keeps exactly the roles of the list that the given role outranks |
| Globals.SubordinatesValues | InstitutoAdecco/Utils/InstitutoAdeccoUtils.cs:64-76 | below Administrator are [Supervisor, Company]; below Supervisor is [Company]; every other name, Company and unknown names included, has [] |
| Globals.MatchGuid | InstitutoAdecco/Globals.cs:28 | `Regex.Match` with the Guid pattern: a match covers the whole input, or all of it but a final "\n"; `GuidRoundTrip` and `GuidMatchInverse` pin down what it accepts |
| Globals.GuidPathShape | InstitutoAdecco/Globals.cs:28 | for a 4-character year and a 2-character month, the path is "/uploads/", the year, "/", the month, "/", then the file part |
| Globals.GuidRoundTrip | InstitutoAdecco/Globals.cs:28 | matching the path of well-formed parts gives back exactly those parts over the whole string, and the same parts when one "\n" is appended |
| Globals.GuidMatchInverse | InstitutoAdecco/Globals.cs:28 | every match has well-formed groups (4 digits, 2 digits, non-empty `[\w\-.]+`) and spans their path; the input is that path, or that path followed by one "\n" |
| Globals.GuidSlashes | InstitutoAdecco/Globals.cs:28 | within a match, '/' occurs only at positions 0, 8, 13 and 16, so the file group holds no '/' |
| Globals.GuidMonthUnchecked | InstitutoAdecco/Globals.cs:28 | the month group is any two digits: "/uploads/2024/99/a.b" matches |
| Globals.GuidExamples | InstitutoAdecco/Globals.cs:28 | "/uploads/2024/03/photo.jpg" matches over all 26 characters; "/bad/path" does not match |
| Globals.PhotoPartsWellFormed | InstitutoAdecco/Globals.cs:28 | the groups "2024", "03" and "photo.jpg" are what the three capture groups allow |
| DataAnnotations.RequiredNonEmpty | InstitutoAdecco/Models/Post.cs:22 | a value that passes `[Required]` is present and non-empty |
| Text.TrimStart | InstitutoAdecco/Models/ApplicationUser.cs:80 | what is left after the leading white space: a suffix of the input, preceded only by white space, and not starting with white space |
| Text.TrimEnd | InstitutoAdecco/Models/ApplicationUser.cs:80 | what is left before the trailing white space: a prefix of the input, followed only by white space, and not ending with white space |
| Text.Trim | InstitutoAdecco/Models/ApplicationUser.cs:80 | `string.Trim()` is the end trim of the start trim and is never longer than its input; `TrimSpec` gives its full characterisation |
| Text.TrimSpec | InstitutoAdecco/Models/ApplicationUser.cs:80 | `Trim` drops only white space from both ends, and what is left has no white space at either end |
| Text.TrimParts | InstitutoAdecco/Models/ApplicationUser.cs:80 | a start trim followed by an end trim keeps a middle slice, flanked by white space only, that neither starts nor ends with white space |
| Text.TrimEmptyIffAllWhite | InstitutoAdecco/Models/ApplicationUser.cs:80 | `Trim` gives "" exactly for a string made only of white space |
| Text.AllWhiteConcat | InstitutoAdecco/Models/ApplicationUser.cs:80 | joining two all-white-space strings gives an all-white-space string |
| Text.TrimNoOuter | InstitutoAdecco/Models/ApplicationUser.cs:80 | a string with no white space at either end is its own trim |
| Text.TrimStartAllWhite | InstitutoAdecco/Models/ApplicationUser.cs:80 | trimming the start of an all-white-space string gives "" |
| Text.TrimEndAllWhite | InstitutoAdecco/Models/ApplicationUser.cs:80 | trimming the end of an all-white-space string gives "" |
| Text.TrimEndAppendWhite | InstitutoAdecco/Models/ApplicationUser.cs:80 | appending white space does not change the end trim |
| Text.TrimStartAppend | InstitutoAdecco/Models/ApplicationUser.cs:80 | when `s` is not all white space, the start trim of `s + t` is the start trim of `s` followed by `t` |
| Text.TrimStartSkipWhite | InstitutoAdecco/Models/ApplicationUser.cs:80 | leading white space does not change the start trim |
| Text.ToDecimal | InstitutoAdecco/Utils/InstitutoAdeccoUtils.cs:124-126 | the decimal form of a number is a non-empty string of ASCII digits |
| Text.ParseToDecimal | InstitutoAdecco/Utils/InstitutoAdeccoUtils.cs:124-126 | reading the decimal form of `n` gives back `n` |
| Text.ParseLeadingZeros | InstitutoAdecco/Utils/InstitutoAdeccoUtils.cs:124-126 | leading zeros do not change the value of a digit string |
| Text.ToDecimalLength | InstitutoAdecco/Utils/InstitutoAdeccoUtils.cs:124-126 | a number below 10^k has at most k digits |
| Text.ZeroPaddedRoundTrip | InstitutoAdecco/Utils/InstitutoAdeccoUtils.cs:124-126 | `ToString("0…0")` with `width` zeros prints a number below 10^width in exactly `width` digits, which read back as the number |
| Text.ZeroPadded | InstitutoAdecco/Utils/InstitutoAdeccoUtils.cs:124-126 | `ToString` with a format of `width` zeros gives ASCII digits, at least `width` of them and at least one |
| Sorting.InsertSorted | InstitutoAdecco/Utils/UserUtils.cs:464-466 | inserting into a sorted list under a total preorder keeps it sorted |
| Sorting.InsertionSortCorrect | InstitutoAdecco/Utils/UserUtils.cs:464-466 | under a total preorder the sort is ordered and is a permutation of its input |
| Attachments.ContainerMatch | InstitutoAdecco/Models/Attachment.cs:51 | `Regex.Match` with the container pattern: a match starts at 0, is 3 to 63 characters long, and covers the whole input or all of it but a final "\n" |
| Attachments.ValidContainer | InstitutoAdecco/Models/Attachment.cs:49-53 | `[Required]`, the container pattern and `[StringLength(63, MinimumLength = 3)]` on `Container`; `ValidContainerIff` characterises it |
| Attachments.ValidContainerIff | InstitutoAdecco/Models/Attachment.cs:49-53 | a `Container` is valid exactly when it has 3 to 63 characters from `[a-z0-9-]`, a letter or digit at both ends, and no "--" |
| Attachments.NoDashDashAt | InstitutoAdecco/Models/Attachment.cs:51 | where the look-ahead `(?!.*--)` holds at position 1, no "--" follows a newline-free run from there |
| Attachments.ValidThumbContainer | InstitutoAdecco/Models/Attachment.cs:65-68 | the container pattern and length on the optional `ThumbContainer`; `ValidThumbContainerIff` characterises it |
| Attachments.ValidThumbContainerIff | InstitutoAdecco/Models/Attachment.cs:65-68 | `ThumbContainer` is valid when it is null, or when it obeys the `Container` rule |
| Attachments.ValidGuid | InstitutoAdecco/Models/Attachment.cs:32-36 | `[Required]`, `[StringLength(200)]` and the Guid pattern as a whole match on `Guid`; `ValidGuidIff` characterises it |
| Attachments.ValidGuidIff | InstitutoAdecco/Models/Attachment.cs:32-36 | a `Guid` is valid exactly when it is at most 200 characters long and is the whole path of well-formed parts |
| Attachments.NewlineGuidDecodesButIsInvalid | InstitutoAdecco/Models/Attachment.cs:32 | a Guid path followed by "\n" still matches the pattern, but fails the whole-string validation |
| Attachments.ValidAttachment | InstitutoAdecco/Models/Attachment.cs:24-91 | all the validation attributes of `Attachment`; `ValidAttachmentBounds` gives the bounds they imply |
| Attachments.ValidAttachmentBounds | InstitutoAdecco/Models/Attachment.cs:24-91 | a valid attachment has `File` and `OriginalFilename` of 1..256, `MimeType` of 1..125, `Guid` ≤ 200, `Description` ≤ 300, `ThumbFile` ≤ 256, and valid container names |
| Posts.NewPost | InstitutoAdecco/Models/Post.cs:103-133 | a new post stores the given title, content, slug and creation date; it is not fixed, has no categories or tags, has status Published (the enum's default), and has no summary, publication, modification or image |
| Posts.SlugPrefixLength | InstitutoAdecco/Models/Post.cs:46 | `[A-Za-z0-9-]*` matches the longest prefix of slug characters |
| Posts.SlugMatch | InstitutoAdecco/Models/Post.cs:46 | `Regex.Match` with `[A-Za-z0-9-]*` always matches at 0, and the match covers the whole slug exactly when every character is a slug character |
| Posts.ValidSlug | InstitutoAdecco/Models/Post.cs:46-50 | the slug pattern, `[StringLength(200)]` and `[Required]` on `Slug`; `ValidSlugIff` characterises it |
| Posts.ValidSlugIff | InstitutoAdecco/Models/Post.cs:46-50 | a `Slug` is valid exactly when present, 1 to 200 characters long, and every character is in `[A-Za-z0-9-]` |
| Posts.ValidPost | InstitutoAdecco/Models/Post.cs:20-50 | all the validation attributes of `Post`; `ValidPostBounds` gives the bounds they imply |
| Posts.ValidPostBounds | InstitutoAdecco/Models/Post.cs:20-50 | a valid post has `Title` of 1..200, `Summary` ≤ 300 when present, non-empty `Content`, and `Slug` of 1..200 |
| Categories.ValidCategory | InstitutoAdecco/Models/Category.cs:23-43 | all the validation attributes of `Category`; `ValidCategoryBounds` gives the bounds they imply |
| Categories.ValidCategoryBounds | InstitutoAdecco/Models/Category.cs:23-43 | a valid category has `Name` and `Slug` of 1..200, and `Description` ≤ 300 when present |
| Categories.LookupById | InstitutoAdecco/Utils/InstitutoAdeccoUtils.cs:90 | in a table keyed by id, a row with `Id == id` exists exactly when `id` is a key, and every such row is the one under that key, so the map lookup finds what `FirstAsync(x => x.Id == id)` finds |
| ApplicationUsers.FullName | InstitutoAdecco/Models/ApplicationUser.cs:76-82 | the `FullName` getter: first name, a space and last name, trimmed; `FullNameTrimmed`, `FullNameNoLastname` and `FullNameJoin` state what it gives |
| ApplicationUsers.FullNameTrimmed | InstitutoAdecco/Models/ApplicationUser.cs:76-82 | `FullName` never starts or ends with white space, and is no longer than first name + 1 + last name |
| ApplicationUsers.FullNameNoLastname | InstitutoAdecco/Models/ApplicationUser.cs:80 | with an empty last name, `FullName` is the trimmed first name, and "" when both are empty |
| ApplicationUsers.FullNameJoin | InstitutoAdecco/Models/ApplicationUser.cs:80 | two non-empty names with no outer white space join as first + " " + last, with exactly one space |
| ApplicationUsers.ValidApplicationUser | InstitutoAdecco/Models/ApplicationUser.cs:20-57 | all the validation attributes of `ApplicationUser`; `ValidApplicationUserBounds` gives the bounds they imply |
| ApplicationUsers.ValidApplicationUserBounds | InstitutoAdecco/Models/ApplicationUser.cs:20-57 | a valid user has names and company of 1..80, language of 1..16, and a full name of 1..161 characters |
| InstitutoAdeccoUtils.FirstIndex | InstitutoAdecco/Utils/InstitutoAdeccoUtils.cs:67-75 | the position `List.Remove` acts on: it holds `x`, and no earlier position does |
| InstitutoAdeccoUtils.RemoveFirst | InstitutoAdecco/Utils/InstitutoAdeccoUtils.cs:67-75 | `List.Remove` leaves a list without `x` unchanged; otherwise it cuts out exactly the element at the first index of `x` and keeps the others in order, so one fewer copy of `x` remains |
| InstitutoAdeccoUtils.GetSubordinatedRoles | InstitutoAdecco/Utils/InstitutoAdeccoUtils.cs:61-77 | the result is the hierarchy's list of roles below `myRole`: it holds exactly the roles `myRole` outranks, never Administrator or `myRole`, and is a suffix of `Roles` |
| InstitutoAdeccoUtils.MySubordinatedRoles | InstitutoAdecco/Utils/InstitutoAdeccoUtils.cs:48-55 | throws what the lookup of the current user throws; otherwise gives [] for a user without roles, and the roles below the user's first role for any other user |
| InstitutoAdeccoUtils.AbsoluteLink | InstitutoAdecco/Utils/InstitutoAdeccoUtils.cs:110-114 | when `PageLink` produces an absolute link, that link is the result; any other outcome, a missing link included, throws "not absolute" |
| InstitutoAdeccoUtils.ClimbFuel | InstitutoAdecco/Utils/InstitutoAdeccoUtils.cs:88-92 | a walk up the parent links that ended does not change with more steps allowed |
| InstitutoAdeccoUtils.WalkIsClimb | InstitutoAdecco/Utils/InstitutoAdeccoUtils.cs:88-92 | the walk of a category is the same for every step bound large enough |
| InstitutoAdeccoUtils.ClimbChain | InstitutoAdecco/Utils/InstitutoAdeccoUtils.cs:86-92 | the chain of a completed walk starts at the category, ends at a root, and each element is the table's category for the previous element's parent id |
| InstitutoAdeccoUtils.ChainIds | InstitutoAdecco/Utils/InstitutoAdeccoUtils.cs:88-91 | in a table keyed by id, each category of the walk's chain after the first has the `Id` that the previous category names as `ParentId` |
| InstitutoAdeccoUtils.ClimbMissing | InstitutoAdecco/Utils/InstitutoAdeccoUtils.cs:90 | a walk that stops at a missing category names a parent id that is not in the table |
| InstitutoAdeccoUtils.ResolvedClimbNotMissing | InstitutoAdecco/Utils/InstitutoAdeccoUtils.cs:90 | when every parent id in the table resolves, the walk never fails at the lookup |
| InstitutoAdeccoUtils.ChainSlots | InstitutoAdecco/Utils/InstitutoAdeccoUtils.cs:94-106 | for a chain of 1 to 10 categories the ten slots hold the slugs root first, the chain's first category in slot n-1, and null after |
| InstitutoAdeccoUtils.CategoryUrlMissing | InstitutoAdecco/Utils/InstitutoAdeccoUtils.cs:90 | a parent id outside the table throws at the lookup |
| InstitutoAdeccoUtils.CategoryUrlTooDeep | InstitutoAdecco/Utils/InstitutoAdeccoUtils.cs:108 | a chain of more than 10 categories throws |
| InstitutoAdeccoUtils.CategoryUrlSlots | InstitutoAdecco/Utils/InstitutoAdeccoUtils.cs:84-110 | for a chain of n ≤ 10 categories, the link of the category page is asked for with the root's slug in `Category`, the i-th descendant's slug in `SubCategory`i (the category itself last), and null in slots n and above |
| InstitutoAdeccoUtils.CategoryPathIdentifies | InstitutoAdecco/Models/Category.cs:15 | with unique slugs, two categories of the table whose walks give the same slugs are the same category |
| InstitutoAdeccoUtils.CategoryUrlExample | InstitutoAdecco/Utils/InstitutoAdeccoUtils.cs:84-110 | for root "noticias" with child "empleo", the child's page is asked for with slots ["noticias", "empleo", null × 8] |
| InstitutoAdeccoUtils.SlugStack.Push | InstitutoAdecco/Utils/InstitutoAdeccoUtils.cs:86 | `Stack.Push` puts the slug on top |
| InstitutoAdeccoUtils.SlugStack.Pop | InstitutoAdecco/Utils/InstitutoAdeccoUtils.cs:96 | `Stack.Pop` takes the top slug off a non-empty stack |
| InstitutoAdeccoUtils.SlugStack.PopOrNull | InstitutoAdecco/Utils/InstitutoAdeccoUtils.cs:97-105 | `Count != 0 ? Pop() : null`: the top slug, or null with the stack left empty |
| InstitutoAdeccoUtils.PoppedStep | InstitutoAdecco/Utils/InstitutoAdeccoUtils.cs:96-105 | after k pops, the next pop yields the slug at position k, root first, or nothing once the stack is empty |
| InstitutoAdeccoUtils.ClimbStep | InstitutoAdecco/Utils/InstitutoAdeccoUtils.cs:88-91 | moving from a category to its parent, a walk that ends is one step shorter and keeps the categories already visited in front |
| InstitutoAdeccoUtils.SlugsSnoc | InstitutoAdecco/Utils/InstitutoAdeccoUtils.cs:86-91 | pushing one more category's slug extends the slug list at the end |
| InstitutoAdeccoUtils.PushAncestors | InstitutoAdecco/Utils/InstitutoAdeccoUtils.cs:84-92 | the loop pushes the slugs of the category and of all its ancestors, leaf first, or stops at a missing parent |
| InstitutoAdeccoUtils.PopSlots | InstitutoAdecco/Utils/InstitutoAdeccoUtils.cs:94-106 | the ten pops take the top slug and then the next nine, or null once the stack is empty, and leave what lies beyond ten levels on the stack |
| InstitutoAdeccoUtils.PoppedSlots | InstitutoAdecco/Utils/InstitutoAdeccoUtils.cs:94-106 | what the ten pops take off the stack of slugs (leaf at the bottom) are the route slots: the slugs root first, then nulls |
| InstitutoAdeccoUtils.CategoryUrlOfPops | InstitutoAdecco/Utils/InstitutoAdeccoUtils.cs:94-110 | after the ten pops, anything left on the stack means a chain deeper than ten and throws; an empty stack means the page link of the popped slots |
| InstitutoAdeccoUtils.GetCategoryUrl | InstitutoAdecco/Utils/InstitutoAdeccoUtils.cs:82-115 | gives exactly the outcome of the category's walk that `CategoryUrlMissing`, `CategoryUrlTooDeep` and `CategoryUrlSlots` describe |
| InstitutoAdeccoUtils.GetPostUrl | InstitutoAdecco/Utils/InstitutoAdeccoUtils.cs:120-133 | when the page link of the post's date and slug route is absolute, it is the result; otherwise the call throws "not absolute" |
| InstitutoAdeccoUtils.PostRoute | InstitutoAdecco/Utils/InstitutoAdeccoUtils.cs:122-127 | the route values of a post: a `/Post` route of ASCII digit strings of at least four, two and two characters for year, month and day, and the post's slug |
| InstitutoAdeccoUtils.PostRouteDigits | InstitutoAdecco/Utils/InstitutoAdeccoUtils.cs:122-127 | for a `DateTime` date the route holds year, month and day as 4, 2 and 2 ASCII digits, which read back as the date's components, and the post's slug |
| InstitutoAdeccoUtils.PostRouteExample | InstitutoAdecco/Utils/InstitutoAdeccoUtils.cs:124-126 | a post created on 2023-01-05 links with "2023", "01" and "05" |
| InstitutoAdeccoUtils.GetAttachmentUrl | InstitutoAdecco/Utils/InstitutoAdeccoUtils.cs:138-154 | there is no link (null) exactly when the Guid does not match the pattern |
| InstitutoAdeccoUtils.AttachmentUrlOfPath | InstitutoAdecco/Utils/InstitutoAdeccoUtils.cs:140-153 | the Guid of well-formed parts has its link asked for with exactly those year, month and path; a link that is not absolute throws |
| InstitutoAdeccoUtils.AttachmentUrlOfNewlinePath | InstitutoAdecco/Utils/InstitutoAdeccoUtils.cs:140-153 | a Guid that is the path of well-formed parts followed by one "\n" still gets a link, asked for with those same parts; a link that is not absolute throws |
| InstitutoAdeccoUtils.AttachmentUrlNewlineExample | InstitutoAdecco/Utils/InstitutoAdeccoUtils.cs:140-153 | "/uploads/2024/03/photo.jpg\n" asks for the uploads page of "2024", "03" and "photo.jpg" |
| UserUtils.FindIn | InstitutoAdecco/Utils/UserUtils.cs:197 | finds a user of the table with the id, or says that no user has it |
| UserUtils.GetUser | InstitutoAdecco/Utils/UserUtils.cs:190-198 | a null or empty id throws "Not a valid user"; an id that names a user of the table gives that user; an id that names nobody throws "Current user not found" |
| UserUtils.GetCurrentUser | InstitutoAdecco/Utils/UserUtils.cs:175-182 | no session id throws "Cannot get current user Id"; a session id that names a user gives the table's user with that id; one that names nobody throws "Current user not found" |
| UserUtils.CurrentUserIsUserById | InstitutoAdecco/Utils/UserUtils.cs:175-198 | for a non-empty id both overloads of `GetUserAsync` give the same outcome, which succeeds exactly when a user of the table has that id |
| UserUtils.IsAdmin | InstitutoAdecco/Utils/UserUtils.cs:322-336 | an Administrator is admin whatever `onlySuperAdmin` is; otherwise `onlySuperAdmin` gives false, and without it the user is admin exactly when they are a Supervisor |
| UserUtils.IsAdminByHierarchy | InstitutoAdecco/Utils/UserUtils.cs:322-336 | a user is admin exactly when one of their roles has Company below it in the hierarchy, and super admin exactly when one has Supervisor below it |
| UserUtils.IsLockedOut | InstitutoAdecco/Utils/UserUtils.cs:486-492 | `IsLockedOutAsync`: lockout is enabled and its end lies after now; `LockoutBoundary` relates it to the enabled filter |
| UserUtils.IsEnabledAt | InstitutoAdecco/Utils/UserUtils.cs:461 | the `onlyEnabled` filter: lockout disabled, no lockout end, or an end before now; `LockoutBoundary` relates it to `IsLockedOut` |
| UserUtils.LockoutBoundary | InstitutoAdecco/Utils/UserUtils.cs:461-492 | every user that the enabled filter keeps is not locked out, and the users that are neither kept nor locked out are exactly those whose lockout ends at the current instant |
| UserUtils.EnabledUsers | InstitutoAdecco/Utils/UserUtils.cs:459-462 | keeps exactly the users of the table that are enabled at `now` |
| UserUtils.KeepInRolesMembers | InstitutoAdecco/Utils/UserUtils.cs:468-479 | the role filter keeps exactly the users who hold one of the role names |
| UserUtils.KeepInRolesAppend | InstitutoAdecco/Utils/UserUtils.cs:468-479 | the role filter keeps relative order: filtering a concatenation concatenates the filtered parts |
| UserUtils.KeepInRolesSorted | InstitutoAdecco/Utils/UserUtils.cs:464-479 | the role filter keeps the descending `LastAccess` order |
| UserUtils.KeepInRolesStep | InstitutoAdecco/Utils/UserUtils.cs:470-478 | the filtered list from position i is the user at i, when kept, followed by the filtered rest |
| UserUtils.AllUsersSpec | InstitutoAdecco/Utils/UserUtils.cs:455-482 | the list holds exactly the table's users that pass the filters: enabled when asked, and in one of the roles when roles are given (an empty role list removes nobody). It is ordered by descending `LastAccess`, and with `onlyEnabled` nobody in it is locked out |
| UserUtils.RemoveUsersNotInRoles | InstitutoAdecco/Utils/UserUtils.cs:470-479 | the backward `RemoveAt` loop leaves exactly the role-filtered list |
| UserUtils.GetAllUsers | InstitutoAdecco/Utils/UserUtils.cs:455-482 | returns the list that `AllUsersSpec` describes |
| UserUtils.GetAllUsersByRoleName | InstitutoAdecco/Utils/UserUtils.cs:446-449 | a null or empty role name means no role filter; any other name filters by that one role |
| UserUtils.GetAllUsersAnyRole | InstitutoAdecco/Utils/UserUtils.cs:437-440 | the list without a role filter |
| UserUtils.OrdinalTotal | InstitutoAdecco/Utils/UserUtils.cs:245 | any two strings are ordered one way or the other |
| UserUtils.OrdinalTransitive | InstitutoAdecco/Utils/UserUtils.cs:245 | the string order is transitive |
| UserUtils.OrdinalTotalPreorder | InstitutoAdecco/Utils/UserUtils.cs:245 | the string order is a total preorder |
| UserUtils.GetUserRoles | InstitutoAdecco/Utils/UserUtils.cs:239-246 | a null or empty id throws `ArgumentException` "User id is required" |
| UserUtils.GetUserRolesSpec | InstitutoAdecco/Utils/UserUtils.cs:241-245 | an unknown id throws "Non existing user"; an existing user's roles come back in ascending order, as a permutation of the stored roles |
| UserUtils.CheckPassword | InstitutoAdecco/Utils/UserUtils.cs:159-169 | true exactly when the user is not null, has a non-empty hash, and the hasher answers `Success` for it; so false on `SuccessRehashNeeded` |
| UserUtils.FailedErrorsEmpty | InstitutoAdecco/Utils/UserUtils.cs:357-367 | no error is reported exactly when every validator succeeded or failed without a description |
| UserUtils.ValidatePasswordQuality | InstitutoAdecco/Utils/UserUtils.cs:351-370 | the errors are the descriptions of every failed validation, validator by validator, in order |
| UserUtils.MissingRolesMembers | InstitutoAdecco/Utils/UserUtils.cs:254-256 | the roles to create are exactly those of the list that do not exist |
| UserUtils.MissingRolesNone | InstitutoAdecco/Utils/UserUtils.cs:254-256 | when every role exists, none is created |
| UserUtils.InitializeRolesStep | InstitutoAdecco/Utils/UserUtils.cs:256-263 | one step of the loop: the role exists after the earlier steps exactly when it existed at the start, and is added to the created roles when it did not |
| UserUtils.InitializeRolesIdempotent | InstitutoAdecco/Utils/UserUtils.cs:254-265 | only missing roles are created; afterwards every name of `Roles` exists; a second run creates none |
| UserUtils.RoleStore.Create | InstitutoAdecco/Utils/UserUtils.cs:258-259 | `CreateAsync` adds the role when the store accepts it, and reports whether it did |
| UserUtils.InitializeRoles | InstitutoAdecco/Utils/UserUtils.cs:254-265 | the missing roles are appended in `Roles` order. It completes exactly when the store accepts each of them. Otherwise it throws for the first missing role the store refuses: every missing role before it was accepted and created, and no role after it was created |

## Left out

- The identity pages (register, external login, e-mail confirmation, account management), `Program.cs`, the admin and attachment controllers, `ApplicationDbContext`, the `Tag` model, the error page and the browser scripts. They are request plumbing, storage streaming and UI, with no rules of their own.
- The second half of `InitializeRolesAsync` (reading the super-admin configuration, creating that user and giving it the Administrator role). It only calls into the configuration and the identity store.
- `GetUserId`, `GetUserName`, `IsLoggedIn`, `IsUserInfoComplete`, `UserInRoleAsync`, `CreateUserAsync` and `GetEmailStore`. They read the HTTP context or call the identity store directly, so the model takes the session's user id as a parameter instead.
- `IsAdminAsync(onlySuperAdmin)` for the current user. It is `IsAdmin` applied to the user that `GetCurrentUser` returns.
- The password validators receive a blank `ApplicationUser`. The model gives each validator only the password.
- `UserUtils.GetUserRoles`: the roles are sorted ordinally, by code point. The source's `OrderBy(x => x)` uses the culture-sensitive default string comparer.
- `Sorting.InsertionSort`: that equal keys keep their input order, as LINQ's `OrderBy` promises, is not proved; only sortedness and being a permutation are.
- `UserUtils.AllUsers`: the database sorts by `LastAccess` (SQL `ORDER BY`). The model uses one fixed sort, so the order of users with equal `LastAccess` is only one of the orders the database may return.
- `InstitutoAdeccoUtils.GetCategoryUrl` requires that the walk up the parent links ends. A category whose ancestors form a cycle makes the source loop forever, and the model does not describe that run.
- Instants (`LastAccess`, `LockoutEnd`) are whole numbers of ticks, and `Created` keeps only year, month and day. Time zones and `DateTimeOffset` comparison are not modelled.
- String lengths count Dafny characters, not UTF-16 code units, so characters outside the Basic Multilingual Plane count once instead of twice.
- `[SanitizeHtml]` and `[RequiredCheck]`: their source is not part of this model. `ApplicationUser.AcceptTermsOfService` is modelled only as a boolean.
- `Attachment.Location` and `FileLocation` decide where a file is served from, and no rule here depends on them.
- Categories are looked up by map key, and a key stands for the category's `Id`. `KeyedById` states that condition, and `LookupById` and `ChainIds` show that under it the lookup is the source's search by `Id`. The walk's other lemmas do not require it.
- A null `urlHelper` makes `GetCategoryUrlAsync` and `GetAttachmentUrlAsync` throw a `NullReferenceException`, because they call `PageLink` on it directly. The model always has a helper, so this outcome is not modelled. `GetPostUrlAsync` uses `?.` and gets a missing link, which the model treats as not absolute.
- The slug uniqueness index is a property of the table (`SlugsUnique`) that the model assumes where it is needed. It is not enforced.
- Role names are compared exactly. The identity store's normalised, case-insensitive role lookup is not modelled.
- Async calls are modelled as plain calls, since nothing runs concurrently.

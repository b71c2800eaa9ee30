# Portfolio backend: a verified model of its controllers and GitHub statistics

This project models the core of a single-tenant portfolio API written in Go. The modelled parts are:

- **Resource controllers.** The project, experience and certification controllers. Each lists, gets, adds, updates and removes documents, and keeps back-reference lists on the one owner `User` in step.
- **Skill sub-resource.** Adding appends to the owner's own skill list. Reading returns the union of the skill tags on the owner's projects.
- **Admin flow.** One endpoint both registers and logs in the administrator, behind a shared passphrase. A second endpoint reads the profile with the password hash blanked.
- **GitHub statistics.** A commit-per-day histogram, per-language byte totals, the star total, and the six most-starred repositories.

Modules:

- `Wrappers`: `Option`.
- `ObjectIds`: a MongoDB ObjectID as 12 bytes. `Hex` renders it as 24 lower-case hex digits. `FromHex` follows `primitive.ObjectIDFromHex`: exactly 24 hex digits, either case. Round trips are proved in both directions, and so is injectivity of `Hex`.
- `Sequences`: the two-pointer in-place reversal that every listing uses, proved against a functional `Reverse`. Also the back-reference filter `RemoveAll` and its properties.
- `Models`: the documents of `backend/models/data.models.go`, the response envelope `(status, message, data)` and an opaque JWT value.
- `Store`: the document store. It is a class `Db` with one sequence of `(id, model)` documents per collection. Its `down` set names the store calls that fail in the current state; each such failure becomes the handler's 500 or 404 path. `Valid()` is the unique `_id` index.
- `ProjectController`, `ExperienceController`, `CertificationController`, `SkillController`, `AdminController`: one module per controller file. Each handler is a method with the same checks, messages, status codes and write order as the Go handler.
- `Stats`: the four GitHub aggregations as sequential loops over the repository listing. Their contracts are stated as pure specification functions (`Days`, `LangBytes`, `SumOf`), and lemmas about those functions give the properties.

Inputs that the code reads from outside:

- An identifier that the store generates on insert is a parameter, `newId`.
- bcrypt is two parameters, `hash` and `check`, with the single assumption `check(p, hash(p))`.
- A handler's HTTP fetch is a parameter. The repository listing is `listing: Option<seq<RepoInfo>>`. The per-repository commit dates are `commitsOf` and the language maps are `langsOf`. In each case `None` stands for a transport or decoding failure.

Points where the code behaves in a way a reader might not expect, and which the model follows:

- **Top repositories.** `sort.Slice` is not stable, so repositories with equal stars do not keep listing order. `FetchTopStarredRepos` promises only *some* ordering by stars.
- **Admin creation.** The code stores the request body's lists (projects, experiences, certifications, skills) as parsed, so a new admin can start with non-empty back-reference lists. `Registered` keeps them.
- **Updates.** The `$set` of `UpdateExperiences` includes the experience's `projects` field, and that of `UpdateProjects` includes the project's `skills` field. The model writes exactly the fields the `$set` lists.
- **Skill listing.** With no projects or no tags the code answers 200 with nil data and the messages "No projects found" and "No skills found", and so does the model.

## Model

| member | source | states |
|---|---|---|
| ObjectIds.Hex | backend/controller/exp.controller.go:138 | `ObjectID.Hex()` is always 24 characters long |
| ObjectIds.FromHex | backend/controller/project.controller.go:36-39 | `ObjectIDFromHex` accepts only 24-character strings; `FromHexAccepts` gives the accepted set and the round-trip lemmas what it yields |
| ObjectIds.DecodeAccepts | backend/controller/project.controller.go:36-39 | hex decoding succeeds exactly on an even number of hex digits, either case |
| ObjectIds.FromHexAccepts | backend/controller/project.controller.go:36-39 | an id parses exactly when it is 24 hex digits, upper, lower or mixed case; so a Get by an upper-case id finds the document, while a removal that compares `Hex()` strings does not match it |
| ObjectIds.HexRoundTrip | backend/controller/exp.controller.go:154-157 | parsing the hex form of any id gives that id back, so after a hex match the "Invalid experience ID" branch cannot be taken |
| ObjectIds.FromHexRoundTrip | backend/controller/exp.controller.go:138 | printing a parsed id gives the input in lower case: a client id matches `expID.Hex()` only when written in lower case |
| ObjectIds.HexInjective | backend/controller/exp.controller.go:137-143 | two ids have the same hex form exactly when they are equal, so comparing by hex compares the ids |
| ObjectIds.DecodeEncode | backend/controller/exp.controller.go:154 | hex-decoding the hex encoding of bytes gives those bytes back |
| ObjectIds.EncodeDecode | backend/controller/exp.controller.go:154 | hex-encoding decoded digits gives the lower-case form of the input |
| Sequences.ReverseInPlace | backend/controller/exp.controller.go:29-34 | the two-pointer swap loop leaves the array holding its old contents reversed |
| Sequences.ReverseAt | backend/controller/certifications.controller.go:29-34 | after reversal, element `i` is the old element `n-1-i` |
| Sequences.ReverseReverse | backend/controller/project.controller.go:24-26 | reversing twice restores the stored order, so a listing loses and invents nothing |
| Sequences.ReverseAppend | backend/controller/project.controller.go:20-28 | a document created last is listed first: creating A, B, C lists C, B, A |
| Sequences.RemoveAllConcat | backend/controller/project.controller.go:122-128 | the back-reference filter works piecewise, so the survivors keep their relative order |
| Sequences.RemoveAll | backend/controller/project.controller.go:122-127 | the copy loop over the owner's references: every survivor comes from the list and differs from the removed id |
| Sequences.RemoveAllCounts | backend/controller/project.controller.go:122-128 | the filter drops every occurrence of the id and keeps every other id with its multiplicity |
| Sequences.RemoveAllLength | backend/controller/certifications.controller.go:140-147 | the filter shortens the list by exactly the number of occurrences of the id |
| Sequences.RemoveAllAbsent | backend/controller/certifications.controller.go:140-147 | removing an id that is not referenced leaves the list as it was |
| Store.Lookup | backend/controller/project.controller.go:40-43 | `FindByID` finds a document with that id exactly when the collection holds one |
| Store.Replace | backend/controller/project.controller.go:89-99 | `UpdateByID` keeps every document's id and position; the documents with another id are untouched, the one with that id gets the new model, and an absent id changes nothing |
| Store.Without | backend/controller/project.controller.go:135-140 | `Delete` removes the document with that id and keeps every other one |
| Store.WithoutUnique | backend/controller/project.controller.go:135-140 | after a delete, no document with that id remains and the ids stay unique |
| Store.ReplaceKeepsIds | backend/controller/project.controller.go:89-99 | an update by id keeps every id and position; the target then reads back as the new model and every other id reads as before |
| Store.LookupReplaceOther | backend/controller/certifications.controller.go:103-117 | an update by id does not change what any other id reads back |
| Models.ProjectComplete | backend/controller/project.controller.go:52-54 | a project is stored only with a name, a small description and a description |
| Models.ExperienceComplete | backend/controller/exp.controller.go:61-63 | an experience needs a company name, a position and a start date; the description is optional |
| Models.CertificationComplete | backend/controller/certifications.controller.go:61-63 | a certification needs a title, a description and an issuer |
| Store.Db.FirstUser | backend/controller/project.controller.go:105-108 | `First(bson.M{})` yields the first stored user exactly when the lookup works and a user exists; under the unique `_id` index no other stored user shares the owner's id, so the handlers' write-back by id reaches that user alone |
| ProjectController.GetProjects | backend/controller/project.controller.go:12-29 | 500 on fetch failure; 200 "No projects found" with nil data when empty; otherwise the stored projects reversed |
| ProjectController.GetProjectByID | backend/controller/project.controller.go:31-45 | empty id 400, malformed id 400, absent id 404, in that order; otherwise 200 with the stored document of that id |
| ProjectController.AddProjects | backend/controller/project.controller.go:47-69 | a missing required field gives 400 and changes nothing. On success the project is stored and exactly its id is appended to the owner's list. If the owner is missing or cannot be updated, the project stays stored without a reference |
| ProjectController.UpdateProjects | backend/controller/project.controller.go:71-102 | id checks, then body checks, each failing case changing nothing. On success the seven `$set` fields of that document are overwritten, nothing else changes, and the answer is the input |
| ProjectController.RemoveProjects | backend/controller/project.controller.go:104-143 | owner check, then empty id, then malformed id. The owner's list becomes the old list without any occurrence of the id, in order. The document is deleted whether or not it was referenced. Each write failure stops at the step it reports |
| ExperienceController.SetFields | backend/controller/exp.controller.go:103-114 | the update writes the ten listed fields and keeps `CreatedBy` as stored |
| ExperienceController.MentionsHex | backend/controller/exp.controller.go:136-147 | the `found` flag: some stored reference prints as the requested id |
| ExperienceController.KeepHex | backend/controller/exp.controller.go:135-143 | the loop's `updated` list: every survivor is a stored reference whose hex form differs from the requested id |
| ExperienceController.UpdateById | backend/controller/exp.controller.go:116 | only the document with that id changes; ids and order are kept |
| ExperienceController.DropByHex | backend/controller/exp.controller.go:135-143 | the copy loop keeps exactly the references whose hex differs from the id, in order, and reports whether one matched |
| ExperienceController.KeepHexIsRemoveAll | backend/controller/exp.controller.go:135-149 | dropping references whose hex equals the hex of `x` drops exactly the occurrences of `x` |
| ExperienceController.GetExperiences | backend/controller/exp.controller.go:12-27 | 500 on fetch failure; 200 "No experiences found" when empty; otherwise the stored experiences reversed |
| ExperienceController.GetExperienceByID | backend/controller/exp.controller.go:36-53 | empty id 400, malformed id 400, absent id 404, in that order; otherwise 200 with the document of that id |
| ExperienceController.AddExperiences | backend/controller/exp.controller.go:55-81 | company name, position and start date are required (description is not). On success the experience is stored and its id appended to the owner's list; the orphan cases are as for projects |
| ExperienceController.UpdateExperiences | backend/controller/exp.controller.go:83-121 | id and body checks change nothing. On success only the ten `$set` fields of that document change, `createdBy` is kept, and the answer is the input |
| ExperienceController.RemoveExperiences | backend/controller/exp.controller.go:123-166 | if no reference prints as the id, 404 "Experience not found" and nothing changes. Otherwise every matching reference is dropped with the rest in order, then the document is deleted. The "Invalid experience ID" branch is unreachable |
| CertificationController.GetCertifications | backend/controller/certifications.controller.go:12-27 | 500 on fetch failure; 200 "No certifications found" with nil data when empty; otherwise the stored certifications reversed |
| CertificationController.GetCertificationByID | backend/controller/certifications.controller.go:36-53 | empty id 400, malformed id 400, absent id 404, in that order; otherwise 200 with the document of that id |
| CertificationController.AddCertification | backend/controller/certifications.controller.go:55-81 | title, description and issuer are required, and a failing check changes nothing. On success the certification is stored and its id appended to the end of the owner's list |
| CertificationController.UpdateCertification | backend/controller/certifications.controller.go:83-120 | id and body checks change nothing. On success the nine `$set` fields of that document are overwritten and the answer is the input |
| CertificationController.RemoveCertification | backend/controller/certifications.controller.go:122-165 | owner 404, then empty id 400, then malformed id 400. Every occurrence of the id is filtered out in order, and the document is deleted without a membership check |
| SkillController.Referenced | backend/controller/skill.controller.go:52-53 | the `$in` filter returns exactly the stored projects whose id the owner references |
| SkillController.SkillUnion | backend/controller/skill.controller.go:61-66 | the `skillSet` loop's tags over the fetched projects; its members are characterised by `SkillUnionMembers` |
| SkillController.SkillUnionMembers | backend/controller/skill.controller.go:61-66 | a tag is in the collected set exactly when some fetched project carries it |
| SkillController.AddSkills | backend/controller/skill.controller.go:11-39 | invalid or empty payload 400 and missing owner 404, each changing nothing. On success the owner's skills are the old list followed by the payload, duplicates kept, and that list is returned |
| SkillController.GetSkills | backend/controller/skill.controller.go:41-78 | missing owner 404; no projects gives 200 "No projects found"; fetch or decode failure 500; an empty union gives "No skills found". Otherwise each tag of the referenced projects appears exactly once and nothing else does, independent of the owner's own skills |
| AdminController.UserByEmail | backend/controller/admin.controller.go:28-29 | `First({email})` returns a user with that email when one exists (the first one stored; the driver itself promises no order without a sort), and none otherwise |
| AdminController.Existing | backend/controller/admin.controller.go:28-30 | any lookup error reads as "no such user" (the handler then registers); otherwise a user with that email is found exactly when one is stored |
| AdminController.Registered | backend/controller/admin.controller.go:22-42 | the stored admin has the passphrase cleared and the hashed password, every other field as in the request |
| AdminController.AdminRegisterAndLogin | backend/controller/admin.controller.go:11-49 | bad body 400, wrong passphrase 401, empty email or password 400, each before any store access and changing nothing. A known email with a failing password check gives 401; with a passing check, 202 with the existing user and its token, nothing changed. An unknown email adds exactly one user: passphrase cleared, password hashed, password checks against the hash; 201 with a token |
| AdminController.AdminGet | backend/controller/admin.controller.go:51-65 | empty user id 401; an id that does not parse or has no user 404; otherwise 200 with that user and its password blanked |
| Stats.SumOfPermutation | backend/Stats.go:202-216 | a sum of per-repository contributions does not depend on the order of the repositories |
| Stats.Less | backend/Stats.go:168-170 | Go's string `<` used by the date sort: lexicographic, a proper prefix first; irreflexive, transitive and total by the lemmas below |
| Stats.LessTransitive | backend/Stats.go:168-170 | Go's string `<` used to sort dates is transitive |
| Stats.LessTotal | backend/Stats.go:168-170 | of two different strings one is `<` the other |
| Stats.Day | backend/Stats.go:156 | `Date[:10]` is the 10-character prefix of the author date |
| Stats.DaysOf | backend/Stats.go:155-158 | one day per decoded commit, each the prefix of that commit's date |
| Stats.Bump | backend/Stats.go:156-157 | `counts[day]++` on a Go map: the day becomes a key, its count rises by one from a missing key's 0, and every other count is kept |
| Stats.CountIntoTallies | backend/Stats.go:154-158 | `counts[day]++` over a list of days adds each day's number of occurrences to its count |
| Stats.TallyDays | backend/Stats.go:154-158 | one repository's counting loop increments its days into the shared counts |
| Stats.CountCommitDays | backend/Stats.go:125-162 | after all repositories, each day's count is the number of its commits across fetched non-fork repositories, and only such days are keys |
| Stats.InsertByDate | backend/Stats.go:168-170 | inserting an entry with a new date into an ascending list keeps it strictly ascending and adds exactly that entry |
| Stats.SortedHistogram | backend/Stats.go:164-170 | the output lists every key of the counts once with its count, strictly ascending by date |
| Stats.FetchGitHubCommits | backend/Stats.go:110-173 | 500 `repo_fetch_failed` when the listing fails. Otherwise the output is the histogram of the commit days: ascending, one entry per day, each count the number of that day's commits |
| Stats.DaysLength | backend/Stats.go:139-158 | the number of days counted is the number of commits decoded from non-fork repositories; a failed fetch contributes 0 |
| Stats.DaysIgnoreForks | backend/Stats.go:126-128 | forks contribute no day |
| Stats.DaysCount | backend/Stats.go:154-158 | a day's count over all repositories is the sum of its counts in each repository's commits |
| Stats.DaysPermutation | backend/Stats.go:125-162 | the days counted do not depend on the order of the repositories |
| Stats.AscendingUnique | backend/Stats.go:168-170 | two strictly ascending lists with the same entries are equal |
| Stats.HistogramUnique | backend/Stats.go:164-172 | a multiset of days has exactly one sorted histogram |
| Stats.HistogramOrderIndependent | backend/Stats.go:121-172 | the histogram answer does not depend on the order in which the repositories are processed |
| Stats.HistogramTotal | backend/Stats.go:164-172 | the histogram's counts add up to the number of commit days counted |
| Stats.Get | backend/Stats.go:215 | a Go map read: the stored value, or 0 for a missing key |
| Stats.AddTo | backend/Stats.go:215 | `langStats[lang] += bytes` adds to that key and leaves every other key |
| Stats.AddBytes | backend/Stats.go:213-217 | merging one language map adds its byte counts key by key; the keys are the union |
| Stats.SumLanguages | backend/Stats.go:189-220 | each language's total is the sum of its bytes over fetched non-fork repositories; exactly the languages named by one of them are keys |
| Stats.FetchGitHubLanguages | backend/Stats.go:175-222 | 500 `repo_fetch_failed` when the listing fails; otherwise the per-language totals above |
| Stats.LangBytesIgnoreForks | backend/Stats.go:190-192 | forks contribute no bytes |
| Stats.LangOrderIndependent | backend/Stats.go:202-216 | the per-language totals and key set do not depend on the order of the repositories |
| Stats.FetchGitHubStars | backend/Stats.go:224-238 | 500 `repo_fetch_failed` when the listing fails; otherwise the sum of star counts over every repository, forks included |
| Stats.InsertByStars | backend/Stats.go:249-251 | inserting a repository into a list ordered by stars (most first) keeps it ordered and adds exactly that repository |
| Stats.SortByStars | backend/Stats.go:249-251 | the result is a permutation of the listing, non-increasing in stars |
| Stats.FetchTopStarredRepos | backend/Stats.go:240-266 | 500 `repo_fetch_failed` when the listing fails. Otherwise `min(6, n)` entries, non-increasing in stars: the first entries of some star-ordered permutation of the listing |
| Stats.TopLeftOut | backend/Stats.go:254-257 | every repository left out has no more stars than the last one included |

## Left out

- **Concurrency.** The goroutines, the 15-worker semaphore, the mutex and the wait group of the two fan-out handlers are not modelled. The fan-out is a sequential loop over the repositories. The order-independence lemmas cover the arbitrary order in which workers merge.
- **HTTP and JSON.** `fetchRepos` and the per-repository requests are inputs; their limits (`per_page=100`, the `since` cutoff, the 10-second timeout) are inside them. `FetchLeetCodeData`, `FetchGitHubProfile` and `FetchContributionCalendar` are pass-through proxies and are not modelled.
- **Author dates.** `AuthorDate` requires dates of at least 10 characters. A shorter date would make `Date[:10]` panic, and the model does not represent that panic. Go's `Date[:10]` slices and measures bytes while the model counts characters; the two differ only for a date that is not ASCII.
- **Histogram sort.** `sort.Slice` sorting `result` in place is modelled as inserting each entry into a sorted sequence. Go's map iteration order is a nondeterministic choice of the next key. The unique-histogram lemma makes the answer independent of both choices.
- **Top-repository sort.** `sort.Slice` on the repository slice is modelled as insertion into a sequence; the in-place swaps are not.
- **Integer width.** Go's `int` values are unbounded integers here: the star total of `FetchGitHubStars`, the `langStats[lang] += bytes` sums and the `counts[day]++` counters could wrap at 64 bits in Go and cannot in the model.
- **Empty histogram.** With no commits, Go answers JSON `null`, because `result` is a nil slice. The model answers an empty sequence.
- **Store.** The store is in memory. Listing returns documents in insertion order; "newest first" relies on that, and the driver does not promise it. Timestamps (`created_at`, `updated_at`) are not modelled. An `id` field in a request body is ignored: inserted documents get `newId`.
- **Error text.** The 500 answer "Failed to register admin" carries `err.Error()` as data; the model answers it with no data.
- **Authentication.** The JWT middleware is not modelled. `AdminGet` receives the verified user id as a parameter.
- **Tokens.** The token is the value `Jwt(subject, email, secret)`; its signature and its 72-hour expiry are not modelled.
- **Passwords.** bcrypt is the pair `hash`/`check`. The one assumption is that a password checks against its own hash. Hashing never fails in the model: `util.HashPassword` panics when bcrypt refuses a password (for example one longer than 72 bytes), the recover middleware turns that into a 500 and nothing is stored, whereas `AdminRegisterAndLogin` stores the user and answers 201 on the same input.
- **Out of scope.** Routing, CORS, logging, configuration and shutdown are not part of this model.

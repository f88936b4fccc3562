# FogBugz and GitHub commit-hook services of aha-services, in Dafny

This project models two integrations of the Aha! services gem.

**FogBugz.** An Aha! feature is pushed to FogBugz as a case, and each of its requirements becomes a child case. Pushing a feature works like this:
- Look for the record's case by the case number stored in its integration fields.
- Send a `new` command, or an `edit` command holding only the fields that changed.
- Upload the attachments the case does not have yet.
- Write the case number and URL back into the record's integration fields.
- Do the same for every requirement, linked to the parent case through `ixBugParent`.

In the other direction, a FogBugz status-change webhook works like this:
- Look the case up.
- Find the Aha! resource linked to the case's number.
- Overwrite that resource's workflow category with the one mapped from the case's FogBugz status.

**GitHub commit hook.** Every reference to a feature (`PROD-12`) or a requirement (`PROD-12-3`) in a commit message gets an HTML comment on that record. A reference to an unknown record is ignored.

## How it is modelled

`ruby_values.dfy` (module `RubyValues`) holds the part of Ruby the code relies on:
- The nested hashes the FogBugz client returns.
- Truthiness (only nil is falsy here).
- `v["key"]`, which is a hash lookup on a Hash and a substring test on a String, raises NoMethodError on nil and TypeError on an Array.
- ActiveSupport's `try(:[], key)`.

Exceptions are carried in a `Result`.

`fogbugz.dfy` (module `Fogbugz`) defines the rules as functions:
- the status mapping;
- the search;
- the parameters and the edit diff;
- the attachment names and uploads;
- the command;
- the integration fields.

It also defines two entry points as specification functions over a call log:
- `Sync` (with `AfterCommand` and `SyncAll`) gives the calls that `create_or_update_case` issues and what it returns or raises.
- `Webhook` does the same for `receive_webhook`.

FogBugz and Aha! are oracles in `Env`. Each is given the whole log so far, including the call it answers, so a reply may depend on everything before it.

`fogbugz_service.dfy` (module `FogbugzService`) has the class `Service`. Its field `log` is the calls issued so far, and its methods follow the Ruby methods statement by statement. `CreateOrUpdateCase` and `SyncRequirements` are mutually recursive, with a loop over the requirements. Each method is proved to leave exactly the log, and return exactly the result, that the specification functions prescribe.

`github_commit_hook.dfy` (module `GithubCommitHook`) has:
- The scanner `Scan`, which implements String#scan with `[A-Z]+-[0-9]+(?:-[0-9]+)?`.
- A grammar of references, `IsRef`, written independently of the scanner. Lemmas prove that the scan finds exactly the leftmost, longest, non-overlapping references.
- The record-type rule, proved to say "requirements" exactly for three-segment references.
- The comment text.
- The class `Hook`, whose `log` holds the comment calls and whose `ReceiveWebhook` is proved to issue exactly `Comments(repository, commits)`.

In three places the code does something easy to misread, and the model follows the code:
- An unmapped status still sends the update, with a nil category.
- A webhook for a case that the search does not find raises NoMethodError at `fogbugz_case["ixBug"]`, because only `AhaApi::NotFound` is rescued.
- The integration fields are written again on every sync, on edit as well as on create.

The status mapping looks like a bug. The model follows the code there too, and the intended mapping is given beside it under "## Findings".

## Model

| member | source | states |
|---|---|---|
| Fogbugz.CategoryAsWritten | lib/services/fogbugz.rb:146-164 | As the code is written: exactly Active, Resolved (Fixed), Closed (Fixed) and Closed (By Design) yield a category (in_progress, done, shipped, will_not_implement). Every other status yields nil, including the nine with an empty `when` and any non-string. |
| Fogbugz.Category | lib/services/fogbugz.rb:146-164 | As the mapping is meant: the three named statuses keep their categories, and all ten resolved/closed variants listed above `"will_not_implement"` yield it. Any other status, or a non-string, yields nil. |
| Fogbugz.EmptyBranchesClearCategory | lib/services/fogbugz.rb:152-162 | Each of the nine statuses with an empty branch yields nil as written and will_not_implement as meant. |
| Fogbugz.CategoryDiffersOnlyOnEmptyBranches | lib/services/fogbugz.rb:146-164 | The corrected mapping differs from the written one exactly on those nine statuses. |
| Fogbugz.FoundCase | lib/services/fogbugz.rb:119-123 | The case is `reply["cases"]["case"]`. It is nil when the reply is nil, or when `cases` is missing or nil. |
| FogbugzService.Service.FetchCase | lib/services/fogbugz.rb:114-123 | Appends exactly one search, `case:<number>` with the seven columns (the empty string when there is no number). Returns the case found in the reply to that search. |
| Fogbugz.SearchFor | lib/services/fogbugz.rb:114-120 | No contract of its own: the search command for a case number, `case:<number>` with the seven columns. FetchCase, SyncSearchesFirst and Webhook state where it is issued. |
| Fogbugz.InitialParameters | lib/services/fogbugz.rb:65-72 | The keys are exactly sTitle, sEvent, sTags and ixProject, plus ixBugParent when the parent is truthy. Each key holds the record's name, the sanitized body, the tags, the project and the parent. |
| Fogbugz.EditParameters | lib/services/fogbugz.rb:98-103 | Raises exactly when the case is nil or an Array. sTitle is kept iff it differs from the case's sTitle, and sEvent iff it differs from sLatestTextSummary. ixBug is set to the case's number. Every other key is kept unchanged and no other key is added. |
| FogbugzService.Service.SetEditParameters | lib/services/fogbugz.rb:98-103 | The in-place deletes and the store give exactly the edit diff. |
| Fogbugz.FileNames | lib/services/fogbugz.rb:108 | Succeeds iff every attachment can be indexed. The names are then the attachments' sFileName values, one each and in order. |
| Fogbugz.AttachmentNames | lib/services/fogbugz.rb:105-112 | No contract of its own; see NoAttachmentListGivesNone, MissingEventRaises, MissingLatestEventRaises, SingleAttachmentIsOneElementList and AttachmentListGivesNamesInOrder, and FileNames for the names. |
| Fogbugz.NoAttachmentListGivesNone | lib/services/fogbugz.rb:105-111 | A latest event without rgAttachments gives no names. |
| Fogbugz.MissingEventRaises | lib/services/fogbugz.rb:106 | A case whose `events` is neither a Hash nor a String raises. |
| Fogbugz.MissingLatestEventRaises | lib/services/fogbugz.rb:106 | A case whose `events` Hash has no `event` raises, because the nil latest event is indexed. |
| Fogbugz.SingleAttachmentIsOneElementList | lib/services/fogbugz.rb:107-108 | A single attachment Hash is treated as a one-element list. |
| Fogbugz.AttachmentListGivesNamesInOrder | lib/services/fogbugz.rb:107-108 | A list of attachment hashes gives their file names in order. |
| Fogbugz.Uploads | lib/services/fogbugz.rb:81-83 | One entry per attachment of the record, in order. The entry is nil iff the case already has a file of that name; otherwise it is the file name with the opened download URL. |
| Fogbugz.PrepareCommand | lib/services/fogbugz.rb:63-83 | The command is `new` iff no case was found; then it carries the initial parameters and, for every attachment in order, its upload (file name and opened download URL). Otherwise it is `edit`, with the edit diff and only the attachments the case lacks. ixBugParent is present iff the parent is truthy, and then holds the parent. |
| Fogbugz.UnchangedRecordEditsOnlyIdentity | lib/services/fogbugz.rb:65-77 | A record whose case already has its title and body sends an edit whose keys are exactly sTags, ixProject, ixBug and (with a parent) ixBugParent. |
| Fogbugz.Sync | lib/services/fogbugz.rb:62-95 | No contract of its own: the calls `create_or_update_case` makes for a record and its requirements, and what it returns or raises. See SyncExtendsLog, SyncSearchesFirst, SyncCommandsSecond, SyncCounts and RequirementLinkedToParent. CreateOrUpdateCase is proved equal to it. |
| Fogbugz.AfterCommand | lib/services/fogbugz.rb:85-94 | No contract of its own: what follows the case command. See AfterCommandExtendsLog, AfterCommandIntegratesFirst and AfterCommandReturnsCase. |
| Fogbugz.SyncAll | lib/services/fogbugz.rb:88-92 | No contract of its own: the requirements synced in order under the parent's number. See SyncAllExtendsLog, SyncAllCounts, SyncAllSplit and RequirementLinkedToParent. SyncRequirements is proved equal to it. |
| Fogbugz.Integration | lib/services/fogbugz.rb:132-135 | No contract of its own: the integration-fields write, with the record type, the reference number, the service name, the case number and `<fogbugz_url>/f/cases/<number>`. AfterCommandIntegratesFirst and SyncCounts state when it is written. |
| Fogbugz.SyncExtendsLog | lib/services/fogbugz.rb:62-95 | A sync only appends to the log, and always issues at least the search. |
| Fogbugz.AfterCommandExtendsLog | lib/services/fogbugz.rb:85-94 | What follows the command only appends to the log. |
| Fogbugz.SyncAllExtendsLog | lib/services/fogbugz.rb:88-92 | Syncing the requirements only appends to the log. |
| Fogbugz.SyncSearchesFirst | lib/services/fogbugz.rb:75 | A record's first call is the search for its case. A sync that stops there has raised. |
| Fogbugz.SyncCommandsSecond | lib/services/fogbugz.rb:74-85 | The second call is the command that the search result determines. Everything after it is what follows that command. |
| Fogbugz.AfterCommandIntegratesFirst | lib/services/fogbugz.rb:85-92 | After the command, the next call writes the integration fields with the number of the case the command returned. The rest of the log is the requirements' sync under that number. |
| Fogbugz.AfterCommandReturnsCase | lib/services/fogbugz.rb:85-94 | A successful sync returns the case from the command's reply. |
| Fogbugz.SyncCounts | lib/services/fogbugz.rb:62-95 | A successful sync issues exactly one case command, and writes the integration fields exactly once, for every record in the tree. |
| Fogbugz.SyncAllCounts | lib/services/fogbugz.rb:88-92 | The same counts hold for a list of requirements. |
| Fogbugz.SyncAllSplit | lib/services/fogbugz.rb:89-91 | The requirements are synced in order: the first i, then the rest. The first failure stops the rest. |
| Fogbugz.RequirementLinkedToParent | lib/services/fogbugz.rb:72 | The i-th requirement's search comes right after the earlier requirements' calls. Its command carries the parent's case number as ixBugParent. |
| FogbugzService.Service.IntegrateResourceWithCase | lib/services/fogbugz.rb:132-135 | Raises, with no call, iff the case cannot be indexed. Otherwise appends one integration-fields write: the record's type, its reference number, the service name, the case number and `<fogbugz_url>/f/cases/<number>`. |
| FogbugzService.Service.CreateOrUpdateCase | lib/services/fogbugz.rb:62-95 | Leaves exactly the log, and returns or raises exactly what, `Sync` prescribes for the record and the parent. |
| FogbugzService.Service.SyncRequirements | lib/services/fogbugz.rb:88-92 | Leaves exactly the log, and returns exactly the result, that `SyncAll` prescribes. |
| FogbugzService.Service.FindResourceWithCase | lib/services/fogbugz.rb:137-139 | Raises, with no call, iff the case cannot be indexed. Otherwise appends one integration-field search by the case number and returns Aha!'s answer. |
| FogbugzService.Service.UpdateResource | lib/services/fogbugz.rb:141-143 | Appends exactly one put of `{type => {workflow_status => {category => c}}}`, where c is the status mapped as the code maps it (`CategoryAsWritten`). For the nine statuses with an empty `when`, c is nil. |
| Fogbugz.StatusPayload | lib/services/fogbugz.rb:142 | No contract of its own: `{type => {workflow_status => {category => c}}}`, with nil for no category. Webhook and UpdateResource state which category it carries. |
| Fogbugz.Webhook | lib/services/fogbugz.rb:35-56 | The calls, in order, are: the case search, then the integration-field search by the case's number, then a put iff Aha! found a feature or a requirement (the feature first). The put carries the category that the code's mapping (`CategoryAsWritten`) gives for the case's sStatus, nil for the nine statuses with an empty `when`. A case that is not found raises NoMethodError, and a NotFound answer ends the webhook quietly. |
| FogbugzService.Service.ReceiveWebhook | lib/services/fogbugz.rb:35-56 | Leaves exactly the log, and returns or raises exactly what, `Webhook` prescribes. |
| GithubCommitHook.MatchAtSound | lib/services/github_commit_hook.rb:12 | What the scanner takes at a position is a reference: capitals, a dash and digits, optionally with a second dash and digits. |
| GithubCommitHook.MatchAt | lib/services/github_commit_hook.rb:12 | A match is non-empty and lies within the string. See MatchAtSound, MatchAtGreedy and MatchAtIsLongestRef for what it matches. |
| GithubCommitHook.Scan | lib/services/github_commit_hook.rb:12 | No contract of its own; see ScanYieldsRefs, ScanSkipsToFirstRef, ScanTakesLongestRef and ScanEmptyIffNoRef. |
| GithubCommitHook.References | lib/services/github_commit_hook.rb:12 | No contract of its own: the scan from the start of the message. See the Scan lemmas and GluedReferenceIsFound, ThirdSegmentIsTaken and RepeatedReferenceScannedTwice. |
| GithubCommitHook.MatchAtGreedy | lib/services/github_commit_hook.rb:12 | Every reference that starts at a position lies within what the scanner takes there. |
| GithubCommitHook.MatchAtIsLongestRef | lib/services/github_commit_hook.rb:12 | The scanner takes nothing at a position iff no reference starts there. Otherwise it takes the longest reference that starts there. |
| GithubCommitHook.ScanYieldsRefs | lib/services/github_commit_hook.rb:12 | Every string the scan yields is a reference. |
| GithubCommitHook.ScanSkipsToFirstRef | lib/services/github_commit_hook.rb:12 | Positions where no reference starts contribute nothing (leftmost match). |
| GithubCommitHook.ScanTakesLongestRef | lib/services/github_commit_hook.rb:12 | At a position where references start, the scan yields the longest one and resumes right after it (greedy, no overlap). |
| GithubCommitHook.ScanEmptyIffNoRef | lib/services/github_commit_hook.rb:12 | The scan is empty iff the message contains no reference at all. |
| GithubCommitHook.GluedReferenceIsFound | lib/services/github_commit_hook.rb:12 | There are no word boundaries: "xABC-1" yields "ABC-1". |
| GithubCommitHook.ThirdSegmentIsTaken | lib/services/github_commit_hook.rb:12 | "AB-1-2-3" yields only "AB-1-2". |
| GithubCommitHook.RepeatedReferenceScannedTwice | lib/services/github_commit_hook.rb:12 | A reference that occurs twice is yielded twice. |
| GithubCommitHook.FeatureRefHasNoDashDigitsDash | lib/services/github_commit_hook.rb:23 | A two-segment reference has no dash-digits-dash in it. |
| GithubCommitHook.RecordType | lib/services/github_commit_hook.rb:23 | No contract of its own; see RecordTypeOfReference and FeatureReferenceType. |
| GithubCommitHook.RecordTypeOfReference | lib/services/github_commit_hook.rb:23 | For a reference, the record type is "requirements" iff the reference has three segments, and "features" otherwise. |
| GithubCommitHook.FeatureReferenceType | lib/services/github_commit_hook.rb:23 | "ABC-1" names a feature. |
| GithubCommitHook.Message | lib/services/github_commit_hook.rb:25-29 | No contract of its own: the heredoc with its seven interpolations. See MessageEmbedsCommit. |
| GithubCommitHook.MessageEmbedsCommit | lib/services/github_commit_hook.rb:25-29 | The comment holds, verbatim and in order: the committer's name and e-mail, the repository's URL and name, the commit message, and the commit URL twice. |
| GithubCommitHook.CommentsForEachReference | lib/services/github_commit_hook.rb:12-15 | One comment per reference occurrence, in order, duplicates included. Each comment has the reference's record type, the reference and the commit's message. |
| GithubCommitHook.CommentsFor | lib/services/github_commit_hook.rb:12-15 | No contract of its own: the comment calls for the references of one commit. See CommentsForEachReference. Hook.CommentOnReferences is proved equal to it. |
| GithubCommitHook.Comments | lib/services/github_commit_hook.rb:9-16 | No contract of its own: the comment calls for a list of commits. See CommentsConcat and RepeatedReferenceCommentedTwice. Hook.ReceiveWebhook is proved equal to it. |
| GithubCommitHook.CommentsConcat | lib/services/github_commit_hook.rb:9 | Commits are handled in order: the comments for two commit lists are those of the first list, then those of the second. |
| GithubCommitHook.RepeatedReferenceCommentedTwice | lib/services/github_commit_hook.rb:9-16 | A message that mentions "ABC-1" twice produces two identical feature comments. |
| GithubCommitHook.Hook.CommentOnRecord | lib/services/github_commit_hook.rb:22-38 | Appends exactly one comment call: the record type, the reference and the message. An Aha! NotFound answer is ignored and nothing is raised. |
| GithubCommitHook.Hook.CommentOnReferences | lib/services/github_commit_hook.rb:12-16 | Appends exactly the comments for the references in one commit's message, in order. |
| GithubCommitHook.Hook.ReceiveWebhook | lib/services/github_commit_hook.rb:8-18 | Appends exactly `Comments(repository, commits)`: every reference of every commit, commit after commit. |

## Left out

- Transport and authentication failures of either API are not modelled. Each query gets its reply from the `Env` oracle.
- Aha! NotFound is modelled only where the code rescues it: `search_integration_fields` in the webhook (`Lookup.NotFound`) and `create_comment` in the commit hook (`Reply.NotFound`). `create_integration_fields` and the workflow-status `put` are appended to the log without consulting an oracle. So a NotFound or any other error from them, which in Ruby propagates to the caller, cannot happen in the model. Other Aha! errors are not modelled either.
- `open(attachment.download_url)` is the handle `Opened(url)`. Nothing is downloaded, and download failures are not modelled.
- `Sanitize.fragment(...).strip` is the `Env` function `sanitize`. Ruby's rendering of a Hash or an Array inside a string is `Env.inspect`.
- `get_integration_field`, `reference_num_to_resource_type` and `service_name` are not part of this model. The record carries the stored case number, and the resource type and service name come from `Env`. `fetch_case_from_feature` is therefore the search for that number.
- The memoised `Fogbugz::Interface` (`fogbugz_api`), `puts` and the logger calls are left out. They are I/O with no effect on the calls or results.
- The service DSL (`title`, `string`, `select`, `install_button`, `callback_url`), `receive_installed` with its project listing, and the `receive_create_feature` / `receive_update_feature` one-liners are left out. Those two one-liners just call `create_or_update_case` with no parent.
- Hash key order and Ruby symbols are not modelled: parameter hashes are maps with string keys.
- `Fogbugz.Record`: a missing requirements list and an empty one are the same value, because the sync treats them alike.
- Ruby has `false`; this model has no `false` value, so only nil is falsy.

## Findings

| source | as written | input that shows it | evidently intended | confidence | as-written member | corrected member |
|---|---|---|---|---|---|---|
| lib/services/fogbugz.rb:152-162 | Nine `when` clauses with empty bodies come before `when "Closed (By Design)"`. In Ruby each empty clause returns nil and none falls through. | Status "Resolved (Duplicate)" (any of the nine) maps to nil. The webhook then overwrites the record's workflow category with nil. | All ten resolved and closed variants map to "will_not_implement". | high; not executed | Fogbugz.CategoryAsWritten, Fogbugz.EmptyBranchesClearCategory | Fogbugz.Category, Fogbugz.CategoryDiffersOnlyOnEmptyBranches |

`Fogbugz.Webhook` and `FogbugzService.Service.UpdateResource` follow the code and use `CategoryAsWritten`, so the model's webhook sends the nil category. `Category` is the mapping as evidently intended, and `CategoryDiffersOnlyOnEmptyBranches` proves where the two differ.

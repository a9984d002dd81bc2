# Publicador web HTV — a Dafny model of the publishing pipeline

The program is a desktop tool. It watches a folder for new audio or video
files, or lets the editor pick one by hand. It then:

- turns the file into a news draft (title, lead, HTML content, tags);
- has an AI model check the draft with web search and offer corrections,
  which the editor accepts or rejects one by one;
- publishes the result as a pending WordPress post whose content embeds
  the matching video from the broadcaster's video server;
- moves the source file into a `papelera` (trash) folder next to it.

When the watcher is on, files that arrive while another one is in flight
wait in a queue. They are taken one at a time, oldest first.

The model follows the program's own modules:

| Dafny module | file | what it models |
|---|---|---|
| `Wrappers` | `wrappers.dfy` | `Option` / `Result` |
| `Text` | `text.dfy` | the Python string operations the code relies on: `strip`, ASCII `lower`, `in`, `find` / `rfind`, `replace(..., 1)`, `split`, `join` |
| `Paths` | `paths.dfy` | `posixpath` `basename`, `dirname`, `join`, `splitext` |
| `News` | `news.dfy` | the tag field: tags joined with `", "`, read back by split, strip and drop-empty |
| `Settings` | `ui/settings.py` → `settings.dfy` | `load_settings` and the dialog geometry of `center_on_parent` |
| `Publisher` | `core/publisher.py` → `publisher.dfy` | the WordPress service: credentials, tag id lookup, video URL and embed, the post request and its outcome |
| `Verification` | `core/verification.py` → `verification.dfy` | the verification request, the JSON extraction from the model's reply, and the merge of the web-search sources |
| `Splash` | `ui/splash.py` → `splash.dfy` | the watcher's file-arrival handler (`Mp3Handler`): its stable-size polling loop, and `load_resources` |
| `Widgets` | `ui/widgets.py` → `widgets.dfy` | `ToggleSwitch`, `StepIndicator` with its icon-font choice, and the `HTMLRenderer` tag stack |
| `Dialogs` | `ui/dialogs.py` → `dialogs.dfy` | the correction dialog's apply logic and the settings dialog's save |
| `App` | `app.py` → `app.dfy` | the main window's pipeline handlers: the queue, the steps, the watcher start-up scan, publishing and the trash move |

How each kind of code is modelled:

- Pure code (string and path handling, tag parsing, URL and JSON
  handling) is written as functions. Lemmas then state what those
  functions promise.
- Objects whose methods update their fields are classes with `modifies`
  clauses: the toggle, the step indicator, the HTML renderer, the two
  dialogs, the file handler and the main window.
- Loops in the source are loops in the model, each proved against a
  specification function: the tag id lookup, the annotation collection,
  the polling loop, the correction loop, the prompt editors' save loop,
  the renderer's feed and the start-up scan.

The outside world enters as parameters:

- What the network returns: tag lookups, the post reply, the model's
  reply and a JSON parser.
- What the filesystem holds: the set of existing paths, directory
  listings, and the successive `getsize` observations.
- The clock, as a `DateTime`.
- The environment variables, as a map.

Each remote call is made once, with no retry, and the tag lookups run one
after another, as in the code.

Timers (`after(ms, ...)`) and worker threads are not run. Each handler
appends the event it starts, with its delay in milliseconds, to the
window's `scheduled` log.

## Model

| member | source | states |
|---|---|---|
| Text.Strip | app.py:703 | `str.strip()` with Python's whitespace characters: the input with its leading and trailing whitespace cut off, that is the slice between the leading and the trailing run of whitespace; it neither starts nor ends with whitespace, and it is empty exactly when the input is all whitespace |
| Text.StripIdempotent | ui/dialogs.py:288 | stripping twice is stripping once |
| Text.StripOfPrefixed | ui/dialogs.py:288 | leading whitespace does not change the stripped text |
| Text.Lower | ui/widgets.py:194 | `str.lower()` on ASCII letters: same length, each letter lowered, other characters kept |
| Text.LowerIdempotent | ui/widgets.py:194 | lowering twice is lowering once |
| Text.IndexOf | ui/dialogs.py:580 | `sub in s`: the first position where `sub` occurs, or none when it occurs nowhere |
| Text.Find | core/verification.py:59 | `str.find(c)`: -1 exactly when `c` is absent, otherwise the first position of `c` |
| Text.RFind | core/verification.py:60 | `str.rfind(c)`: -1 exactly when `c` is absent, otherwise the last position of `c` |
| Text.ReplaceFirst | ui/dialogs.py:581 | `replace(orig, fixed, 1)`: unchanged when `orig` does not occur, otherwise the part before the first occurrence, then `fixed`, then the rest |
| Text.Split | app.py:707 | `str.split(c)`: at least one piece, none containing `c` |
| Text.SplitAtFirst | app.py:707 | splitting `a + c + b` with `c` not in `a` gives `a` and then the pieces of `b` |
| Text.Join | app.py:684 | `sep.join(parts)`: empty for no parts, the part itself for one, and otherwise starting with the first part |
| Text.JoinConcat | app.py:684 | joining two non-empty runs of parts is joining each and putting one separator between them, which with the one-part case fixes every join |
| Text.JoinSplit | app.py:707 | every string is the join of its split by a one-character separator |
| Text.SplitJoin | app.py:684 | splitting a join by a one-character separator the parts lack gives back the parts |
| Paths.Basename | app.py:581 | `os.path.basename`: a suffix of the path with no `/`; a path without `/` is its own basename |
| Paths.Dirname | app.py:836 | `os.path.dirname`: the prefix before the base name with the trailing separators of that prefix removed, except when the prefix is all separators, where it is kept whole |
| Paths.PathJoin | app.py:836 | `os.path.join(a, b)`: an absolute `b` replaces `a`; otherwise `a` then `b`, with a `/` between them unless `a` is empty or already ends in `/` |
| Paths.BasenameOfJoin | app.py:838 | the basename of `join(dir, name)` is `name` when `name` has no `/` |
| Paths.SplitExtShape | app.py:840 | `os.path.splitext`: the root and the extension concatenate back to the path; the extension is empty or is a dot followed by neither dot nor `/` |
| Paths.SplitExtCut | app.py:840 | the extension is non-empty exactly when something other than a dot comes before a dot of the base name: when it is cut, the base part of the root holds such a character, and when it is not, every dot of the base name has only dots before it |
| Paths.SplitExtUnderDir | app.py:840 | below a directory ending in `/`, a plain name keeps its extension and the root is the directory followed by the name's root |
| Paths.SplitExtOfJoin | ui/splash.py:136 | the extension of `join(dir, name)` is the extension of `name`, and its root is `join(dir, root of name)`, for every directory and every `/`-free name |
| Paths.SplitExtOfNamed | app.py:840 | a stem and an extension of that shape split back into exactly themselves |
| News.CleanTags | app.py:706-708 | the cleaned pieces are non-empty and already stripped, and there are no more of them than there were pieces |
| News.CleanTagsOne | app.py:706-708 | one piece yields its strip, or nothing when it is blank |
| News.CleanTagsAppend | app.py:706-708 | cleaning works piece by piece and in order: the tags of two runs of pieces are those of the first, then those of the second |
| News.ParseTags | app.py:706-708 | every tag read from the field is non-empty, stripped and comma-free |
| News.ParseTagsOfPieces | app.py:706-708 | for any field text made of comma-free pieces joined by commas, the tags are the cleaned pieces, in order; with `Text.JoinSplit` this covers every text |
| News.ShownTagsReadBack | app.py:684-708 | showing any comma-free tags with `", ".join` and reading the field back gives them stripped, with blank ones dropped, in order |
| News.CleanTagsOfWellFormed | app.py:706-708 | tags that are already non-empty, stripped and comma-free come out of cleaning unchanged |
| News.ParseTagsOfJoined | app.py:684 | reading back a tag field written by `", ".join` gives back the tags, when those are non-empty, stripped and comma-free |
| News.ParseTagsAfterSpaces | app.py:706-708 | leading whitespace before a written tag field changes nothing |
| Settings.LoadSettings | ui/settings.py:10-17 | saved settings are returned as stored; without a settings file the default has an empty watch folder |
| Settings.NoFolderByDefault | ui/settings.py:10-17 | with no settings file the watch folder is empty |
| Settings.FloorDiv | ui/settings.py:39-40 | Python's `//`: the quotient rounds toward minus infinity, for negative numerators too |
| Settings.Fraction | ui/settings.py:32-33 | `int(n * percent / 100)` for natural numbers: the truncated quotient |
| Settings.CenterOnParent | ui/settings.py:26-43 | the dialog is no smaller than its minimum and no larger than its request or 92 % / 90 % of the screen; it is centred on the parent with floor division and then clamped to be on-screen and non-negative |
| Settings.DialogFitsScreen | ui/settings.py:39-42 | when the screen is large enough, the whole dialog lies within it |
| Publisher.RemoveChar | core/publisher.py:15 | every occurrence of the character is removed and every other character is kept, as many times as it occurred |
| Publisher.RemoveCharOne | core/publisher.py:15 | one character is kept unless it is the one removed |
| Publisher.RemoveCharAppend | core/publisher.py:15 | removal works piece by piece, so the kept characters stay in their order |
| Publisher.MakeAuth | core/publisher.py:15 | there are credentials exactly when a password is set and non-empty; the user is kept and the password has its spaces removed |
| Publisher.Init | core/publisher.py:11-21 | `WordPressService()` from the environment: the site URL or its default, and credentials exactly when `WP_PASSWORD` is set and non-empty |
| Publisher.AcceptedId | core/publisher.py:30-33 | a lookup adds an id exactly when it did not raise, answered 200, and its first record has an `id`; the id is that record's |
| Publisher.TagIdsOf | core/publisher.py:27-36 | the ids found are no more than the lookups made |
| Publisher.TagIdsFromAccepted | core/publisher.py:31-33 | every id returned is the first hit of a lookup that answered 200 |
| Publisher.TagIdsComplete | core/publisher.py:27-36 | every tag gets an id exactly when every lookup answered 200 with at least one hit |
| Publisher.GetTagIds | core/publisher.py:23-36 | no requests and no ids without tags or credentials; otherwise one search request per tag in order, and the accepted ids in order |
| Publisher.Padded | core/publisher.py:40-42 | `strftime` zero padding: exactly `width` decimal digits |
| Publisher.PaddedValue | core/publisher.py:40-42 | the padded digits read back as the number, when it fits |
| Publisher.MonthInTable | core/publisher.py:17-21 | every valid month's two-digit code is a key of the month-name table, so `self.meses[...]` never raises |
| Publisher.VideoFilename | core/publisher.py:44-46 | the video's file name is the root of the base name of the original file followed by `.mp4`, and has no `/` |
| Publisher.VideoFilenameIgnoresDirectory | core/publisher.py:44 | the directory part of the original path does not change the video name |
| Publisher.VideoFilenameOfVideo | core/publisher.py:44-46 | an `.mp4` name is kept as it is |
| Publisher.VideoUrlSegments | core/publisher.py:38-48 | the video URL splits at `/` into the host, year, `NOTICIAS`, month name, `dd-mm-yy` folder and the video file name |
| Publisher.VideoUrlIsJoin | core/publisher.py:48 | the video URL is the `/`-join of those segments |
| Publisher.UrlSegmentsHaveNoSep | core/publisher.py:38-48 | for a `/`-free file name no segment of the URL contains `/`, so the segments are recovered exactly |
| Publisher.VideoEmbed | core/publisher.py:38-49 | the video block is the fixed opening markup, the video URL, and the fixed closing markup, each at its place |
| Publisher.FinalContent | core/publisher.py:63-65 | the post body is the embed, a blank line, the separator, a blank line and the content, each found at its place |
| Publisher.NatToString | core/publisher.py:80 | `str(n)` of a natural number: non-empty and all digits |
| Publisher.NatToStringValue | core/publisher.py:80 | those digits read back as `n` |
| Publisher.IntToString | core/publisher.py:80 | `str(n)`: a minus sign exactly for a negative number, followed by decimal digits |
| Publisher.IntToStringValue | core/publisher.py:80 | the printed status code reads back as the number |
| Publisher.Publish | core/publisher.py:51-80 | without credentials the error and no request; otherwise one tag lookup per tag, then the post creation with title, content, lead, `pending` status and the tag ids; the result is `Ok(link)` exactly when the reply is 201, and otherwise the error with the status code |
| Verification.AnnotationUrls | core/verification.py:52-57 | no more URLs than annotations |
| Verification.AnnotationUrlsFromAnnotations | core/verification.py:52-57 | each collected URL is the URL of some annotation |
| Verification.AnnotationUrlsComplete | core/verification.py:52-57 | each annotation that has a URL contributes it |
| Verification.CollectAnnotationUrls | core/verification.py:52-57 | the loop collects exactly the annotation URLs, in order |
| Verification.ExtractJsonText | core/verification.py:59-64 | an error exactly when the reply lacks `{` or `}`; otherwise the text from the first `{` to the last `}`, or empty when they are in the wrong order |
| Verification.UrlsJson | core/verification.py:66-67 | the URLs as a JSON list of strings, in order |
| Verification.MergeSources | core/verification.py:66-67 | without URLs the result is unchanged; a non-object result with URLs fails; an existing truthy `fuentes_consultadas` is kept; otherwise that key is set to the URLs; no other key changes |
| Verification.MergeSourcesIdempotent | core/verification.py:66-67 | merging the sources twice is merging them once |
| Verification.ModelSourcesKept | core/verification.py:66-67 | sources the model returned itself are never overwritten |
| Verification.PromptFieldsOf | core/verification.py:35-40 | the prompt fields are title, lead and content as given, and the tags joined with `", "` |
| Verification.PromptTagsRecoverable | core/verification.py:39 | the joined tags read back as the article's tags |
| Verification.BuildRequest | core/verification.py:26-40 | the request is built exactly when the `verificacion` entry has both prompts and `str.format` succeeds on the template; a missing key is a `KeyError`, and a failing format is its own error; the model is `modelo` or the default, the system prompt as stored, and the user prompt the formatted template |
| Verification.Verify | core/verification.py:22-69 | an error without a client, when the prompts fail to load, when a prompt key is missing or when the template fails to format, and then nothing is sent; otherwise exactly the built request is sent, and the result is the extracted JSON, parsed and merged with the annotation URLs, or the error of whichever step fails |
| Splash.PrevSize | ui/splash.py:143-152 | the value of `prev` when a poll starts: the last size read successfully, or -1 |
| Splash.FirstStableFrom | ui/splash.py:143-153 | the first poll before the 60th whose size is non-zero and equal to the previous successful size, or none after 60 polls |
| Splash.FirstPollNeverFires | ui/splash.py:143-149 | the first poll cannot fire |
| Splash.ChangingSizeNeverFires | ui/splash.py:144-150 | a file whose every reading succeeds and differs from the one before never fires |
| Splash.SettlingFileFires | ui/splash.py:144-150 | a file whose readings keep changing up to some poll and then repeat a non-zero size fires exactly at the repeat |
| Splash.MediaExtensionOfJoin | ui/splash.py:136 | the filter on the full event path accepts a file exactly when the bare-name filter of the start-up scan (app.py:545) accepts its name |
| Splash.ErrorKeepsPrev | ui/splash.py:145-153 | an `OSError` poll neither fires nor changes `prev` |
| Splash.Mp3Handler.OnCreated | ui/splash.py:131-140 | polling starts exactly for a new, non-directory path with a media extension in any letter case; the path is recorded, so it is never polled twice |
| Splash.Mp3Handler.WaitStable | ui/splash.py:142-153 | the loop fires at the first stable poll and then stops, or gives up after 60 polls; the callback runs once when it fires |
| Splash.LoadResources | ui/splash.py:94-166 | when the service imports fail the globals are unchanged; otherwise watcher support follows whether the watchdog import succeeded |
| Widgets.ToggleSwitch.constructor | ui/widgets.py:137-142 | the switch starts in its initial state, with no command calls |
| Widgets.ToggleSwitch.Toggle | ui/widgets.py:144-148 | a click flips the state and passes the new state to the command, when there is one |
| Widgets.ToggleSwitch.Set | ui/widgets.py:165-167 | `set(val)` sets the state without calling the command |
| Widgets.ToggleTwiceRestores | ui/widgets.py:144-148 | two clicks restore the state, and the command sees the flipped state and then the original |
| Widgets.ByLower | ui/widgets.py:194 | the `by_lower` lookup: a family whose lower-case name is the key, or none when there is none |
| Widgets.ByLowerIsLast | ui/widgets.py:194 | the dict comprehension keeps the last family with a given lower-case name |
| Widgets.PriorityMatch | ui/widgets.py:195-198 | a match is the lookup of one of the preferred names |
| Widgets.Candidates | ui/widgets.py:200 | the fallback list holds exactly the families whose name contains "font awesome" in any case |
| Widgets.LexLeTotal | ui/widgets.py:202 | string order is total |
| Widgets.LexLeTransitive | ui/widgets.py:202 | string order is transitive |
| Widgets.LexLeAntisymmetric | ui/widgets.py:202 | string order is antisymmetric |
| Widgets.KeyLeTotal | ui/widgets.py:202 | the sort key (solid first, then by name) orders any two families |
| Widgets.KeyLeTransitive | ui/widgets.py:202 | that order is transitive |
| Widgets.Least | ui/widgets.py:202 | `sorted(...)[0]`: a member of the list no greater than any other under the sort key |
| Widgets.LeastUnique | ui/widgets.py:202 | any member no greater than all the others is that one |
| Widgets.PriorityKeysAreFontAwesome | ui/widgets.py:188-193 | every preferred name contains "font awesome" |
| Widgets.PriorityMatchIsFontAwesome | ui/widgets.py:195-198 | a preferred match is an installed icon-font family |
| Widgets.DetectFaFont | ui/widgets.py:182-203 | none when the font list fails; the first installed preferred name when there is one; otherwise the least icon-font family under the sort key, or none when there is no such family |
| Widgets.DetectFaFontFound | ui/widgets.py:182-203 | the font found is an installed family naming Font Awesome; none is found exactly when the family list fails or holds no such family |
| Widgets.PriorityMatchFirst | ui/widgets.py:195-198 | the first preferred name that is installed is the match |
| Widgets.PriorityWins | ui/widgets.py:195-198 | an installed preferred name wins over the fallback, in the order of preference |
| Widgets.FallbackIsLeast | ui/widgets.py:200-203 | without a preferred name, the least icon-font family is chosen, solid variants first and then by name |
| Widgets.StepIndicator.constructor | ui/widgets.py:175-180 | the indicator starts at step 0 with nothing completed, and the icon font is the detected one |
| Widgets.StepIndicator.SetStep | ui/widgets.py:205-209 | the current step is set, and the completed set is replaced when one is given |
| Widgets.StepIndicator.CompleteStep | ui/widgets.py:211-213 | the step is added to the completed set, and the current step stays |
| Widgets.StepIndicator.Reset | ui/widgets.py:215-218 | back to step 0 with nothing completed |
| Widgets.DisplayTags | ui/widgets.py:291-298 | text is bold exactly when `strong` or `b` is open and italic exactly when `em` or `i` is open, in that order |
| Widgets.Step | ui/widgets.py:282-298 | one handler call writes at most one segment after the existing ones; a start tag pushes it, an end tag pops at most that tag, data writes its text with the open elements' display tags |
| Widgets.Run | ui/widgets.py:279 | feeding tokens writes at most one segment and pushes at most one tag per token |
| Widgets.EndUndoesStart | ui/widgets.py:282-289 | an end tag pops its own start tag |
| Widgets.MismatchedEndKeepsStack | ui/widgets.py:285-289 | an end tag that is not the innermost open one leaves the stack alone; only `</p>` writes a break |
| Widgets.ParagraphEndBreaks | ui/widgets.py:286-287 | `</p>` writes a blank line whether or not it matches |
| Widgets.RunExtendsOutput | ui/widgets.py:276-298 | feeding only appends to the text widget |
| Widgets.RunAppend | ui/widgets.py:279 | feeding two streams in turn is feeding their concatenation |
| Widgets.StackIgnoresOutput | ui/widgets.py:282-298 | the tag stack does not depend on the text written |
| Widgets.WrapKeepsStack | ui/widgets.py:282-289 | a balanced element leaves the enclosing stack unchanged |
| Widgets.HtmlRenderer.constructor | ui/widgets.py:271-274 | an empty tag stack and an empty view |
| Widgets.HtmlRenderer.HandleStartTag | ui/widgets.py:282-283 | pushes the tag |
| Widgets.HtmlRenderer.HandleEndTag | ui/widgets.py:285-289 | writes the paragraph break and pops a matching innermost tag |
| Widgets.HtmlRenderer.HandleData | ui/widgets.py:291-298 | writes the text with the display tags of the open elements |
| Widgets.HtmlRenderer.Feed | ui/widgets.py:279 | the handlers applied to the tokens in order |
| Widgets.HtmlRenderer.Render | ui/widgets.py:276-280 | `render` clears the view but not the tag stack, then feeds the markup |
| Widgets.UnclosedTagLeaks | ui/widgets.py:271-280 | an unclosed `<b>` in one render makes the next render's text bold |
| Dialogs.Put | ui/dialogs.py:581 | writes one text field and leaves the other fields and the tags alone |
| Dialogs.FirstFieldWith | ui/dialogs.py:579-582 | the first of title, lead and content that contains the original text, or none when none does |
| Dialogs.FirstFieldFound | ui/dialogs.py:579-582 | the field loop stops at the first field that contains the original text |
| Dialogs.ApplyCorrection | ui/dialogs.py:575-582 | a correction never touches the tags, and one with an empty original or replacement changes nothing |
| Dialogs.ApplyCorrectionEffect | ui/dialogs.py:579-582 | without a field that contains the original, nothing changes; otherwise the first such field has its first occurrence replaced and the other fields are kept |
| Dialogs.ApplyOne | ui/dialogs.py:575-582 | the loop over the fields performs one correction |
| Dialogs.ApplyAllKeepsTags | ui/dialogs.py:574-582 | applying every accepted correction keeps the tags |
| Dialogs.ApplyAllSkipsEmpty | ui/dialogs.py:577-578 | corrections with an empty original or replacement are skipped |
| Dialogs.ApplyAllSnoc | ui/dialogs.py:574-582 | the corrections are applied in order, one after another |
| Dialogs.Accepted | ui/dialogs.py:510 | the accepted corrections are drawn from the list |
| Dialogs.AcceptedOneRow | ui/dialogs.py:510 | one row is accepted exactly when it is ticked |
| Dialogs.AcceptedAppend | ui/dialogs.py:510 | the accepted rows of a checklist split in two are those of the first part followed by those of the second, so the ticked corrections are kept in checklist order |
| Dialogs.Omitted | ui/dialogs.py:509 | collecting the omitted numbers fails (the `KeyError` of `c["numero"]`) exactly when an unticked correction has no number |
| Dialogs.OmittedOneRow | ui/dialogs.py:509 | one row contributes nothing when ticked, its number when unticked, and fails when unticked without a number |
| Dialogs.OmittedAppend | ui/dialogs.py:509 | the omitted numbers of a checklist split in two are those of the first part followed by those of the second; a failure in either part fails the whole |
| Dialogs.AcceptedPlusOmitted | ui/dialogs.py:509-510 | every correction is either accepted or omitted |
| Dialogs.NothingOmitted | ui/dialogs.py:509-511 | nothing is omitted exactly when every box is ticked, and then every correction is accepted |
| Dialogs.NoneAccepted | ui/dialogs.py:567-583 | with every box unticked nothing is accepted and the text is unchanged |
| Dialogs.DialogResult | ui/dialogs.py:509-585 | nothing when collecting the omitted numbers fails; with something omitted and a snapshot, the snapshot with the accepted corrections re-applied, keeping its tags; otherwise the backend's corrected text |
| Dialogs.CorrectedTextPassesThrough | ui/dialogs.py:567-585 | when every box is ticked, or no snapshot was given, the backend's corrected text is what the dialog passes on |
| Dialogs.VerificationDialog.constructor | ui/dialogs.py:369-371 | every correction's box starts ticked |
| Dialogs.VerificationDialog.SetChecked | ui/dialogs.py:377-383 | ticking a box changes that box only |
| Dialogs.VerificationDialog.Apply | ui/dialogs.py:508-586 | when an unticked correction has no number, or corrections are omitted and the editor declines, the dialog stays open and nothing is passed on; otherwise `DialogResult` is passed on once and the dialog closes |
| Dialogs.UpdateEntrySpec | ui/dialogs.py:292-296 | each editor sets `modelo`, `system_prompt` and `user_prompt_template` to the stripped values and keeps the entry's other keys |
| Dialogs.SavePromptsKeys | ui/dialogs.py:291-293 | after saving, the prompt keys are the old ones plus the editors' keys |
| Dialogs.SavePromptsKeepsOthers | ui/dialogs.py:291-296 | an entry no editor names is kept as it was |
| Dialogs.SavePromptsSetsEntry | ui/dialogs.py:291-296 | with distinct editor keys, each editor's entry is its old entry, or an empty one, updated with its values |
| Dialogs.WriteEditors | ui/dialogs.py:291-296 | the save loop computes exactly the saved prompts |
| Dialogs.SettingsDialog.Save | ui/dialogs.py:287-303 | the watch folder becomes the stripped entry and the prompts the saved prompts; both are written, `on_save` runs when set, and the dialog closes |
| App.DraftOf | app.py:700-709 | the draft read back from the widgets has its title and lead stripped and its tags well formed |
| App.FilledDraft | app.py:677-684 | the title, lead and content widgets hold the article's fields, and the tag field reads back as the article's tags cleaned when none contains a comma |
| App.DraftOfFilled | app.py:677-709 | reading back a filled draft gives back the article, when its text is stripped and its tags well formed |
| App.DraftOfStable | app.py:700-709 | filling the widgets with a read-back draft and reading it again changes nothing |
| App.CorrectedDraftEffect | app.py:752-763 | an all-empty correction leaves the draft alone, and one that sets every field replaces the draft |
| App.CorrectedDraftKeeps | app.py:752-763 | each empty field of the corrected text leaves that field of the draft alone |
| App.ArchivoOriginal | app.py:789-792 | empty without an original file name; otherwise the name's stem with `.mp4` |
| App.WorkerVideoFilename | app.py:646-647 | the processing worker's video name ends in `.mp4` |
| App.WorkerAndPublisherAgree | app.py:646-647 | the processing worker and the publish payload name the same video |
| App.PublisherKeepsArchivoOriginal | core/publisher.py:44-46 | the service's video name is the payload's `archivo_original`, so the embed links to that video |
| App.PendingFilesSound | app.py:541-549 | every file found at start-up is a regular file of the folder with a media extension |
| App.InsertSorted | app.py:541-549 | inserting by modification time keeps the list sorted |
| App.InsertPermutes | app.py:541-549 | inserting adds exactly the new file |
| App.SortByTimeSorted | app.py:541-549 | `sorted(..., key=getmtime)` is sorted by time |
| App.SortByTimePermutes | app.py:541-549 | and is a permutation of what it sorts |
| App.ExistingFilesSpec | app.py:539-549 | the start-up list is sorted by time, a permutation of the qualifying files, each of them listed |
| App.PendingFilesComplete | app.py:541-547 | every regular file with a media extension is in the start-up list |
| App.DetectAll | app.py:550-552 | one immediate `_on_mp3_detected` per start-up file, in order |
| App.Prescan | app.py:550-552 | the start-up loop schedules exactly those calls and marks exactly those files as seen |
| App.Hhmmss | app.py:842 | `strftime('%H%M%S')`: six digits |
| App.TrashMove | app.py:832-846 | a move happens exactly when a file is chosen and exists, and it moves that file |
| App.TrashKeepsFreeName | app.py:836-839 | when the trash has no file of that name, the file keeps its name |
| App.StampedNameSplits | app.py:840-843 | the time-stamped name has no `/`, and splits into the stem with the stamp and the original extension |
| App.TrashRenamesTakenName | app.py:839-843 | when the name is taken, the file becomes `stem_HHMMSS.ext` in the trash |
| App.TrashDestinationInTrash | app.py:836-843 | the destination is a plain name inside `papelera` beside the file, and it is the file's own name exactly when that name is free there |
| App.PublicadorApp.constructor | app.py:63-77 | the window starts idle on the audio step, with an empty queue and draft, and the watcher switch off |
| App.PublicadorApp.ShowStep | app.py:422-427 | the step becomes current and every earlier step is completed |
| App.PublicadorApp.ResetFlow | app.py:459-490 | the window returns to the audio step with nothing in flight; with the watcher on and files queued, the oldest is taken off the queue and scheduled 800 ms later |
| App.PublicadorApp.OnMp3Detected | app.py:573-589 | while a file is in flight the new one joins the end of the queue and nothing else changes; otherwise it becomes the file in flight, to be published automatically, and processing starts |
| App.PublicadorApp.SeleccionarAudio | app.py:594-612 | an empty choice changes nothing; otherwise the file becomes the chosen one, shown by its basename, on the processing step |
| App.PublicadorApp.ProcesamientoOk | app.py:654-664 | the draft is filled from the article, the editing step is shown, and verification is scheduled 400 ms later when auto-publishing |
| App.PublicadorApp.ProcesamientoError | app.py:666-675 | the file leaves flight and the window resets 5 s later |
| App.PublicadorApp.IniciarVerificacion | app.py:693-713 | the buttons are disabled and the worker is started with the draft as read back |
| App.PublicadorApp.MostrarVerificacion | app.py:715-743 | with no corrections, publishing is scheduled 600 ms later when auto-publishing; otherwise the dialog opens with the read-back draft as the original |
| App.PublicadorApp.VerificacionError | app.py:745-750 | the buttons come back and only auto-publishing is called off |
| App.PublicadorApp.AplicarCorrecciones | app.py:752-768 | the non-empty corrected fields replace the draft's, and publishing is scheduled 800 ms later when auto-publishing |
| App.PublicadorApp.Publicar | app.py:773-795 | the publish step is shown and the worker is started with the read-back draft and the video name |
| App.PublicadorApp.MoverAPapelera | app.py:832-846 | records exactly the move `TrashMove` prescribes, if any |
| App.PublicadorApp.PublicacionOk | app.py:804-819 | the file is moved to the trash, the link is shown, the publish step is completed, the file leaves flight, and with the watcher on the window resets 4 s later |
| App.PublicadorApp.PublicacionError | app.py:821-829 | the file leaves flight |
| App.PublicadorApp.LimpiarTodo | app.py:853-859 | the draft is cleared |
| App.PublicadorApp.StartWatcher | app.py:514-557 | without the watchdog library, a watch folder, or a folder that exists, nothing starts, the indicator is unchanged and the switch is turned off without calling its command; otherwise the watcher runs with a fresh handler that has seen exactly the start-up files, those files are scheduled oldest first, the switch is untouched, and the indicator is reset when it was on the audio step |
| App.PublicadorApp.Observe | app.py:526-552 | the observer starts with a fresh handler, which has seen exactly the start-up files; those files are scheduled, and the indicator is reset when it was on the audio step |
| App.PublicadorApp.StopWatcher | app.py:559-571 | the watcher is off and its handler is dropped |
| App.PublicadorApp.OnToggleWatcher | app.py:508-512 | off stops the watcher and drops its handler; on does everything `StartWatcher` states, on its failure and on its success |
| App.PublicadorApp.OnSettingsSaved | app.py:864-867 | a stopped watcher leaves everything unchanged; a running one is stopped and started again: when it cannot start it stays stopped with the switch off, and otherwise a fresh handler schedules every media file still in the folder again, including files already queued or in flight |
| App.TwoArrivals | app.py:573-589 | a second file that arrives while the first is in flight is taken after the first finishes, 800 ms after the reset |

## Left out

- The Tk presentation is not part of this model: layout, colours, fonts, toasts, the status line, `_configure_window_geometry`, scroll bindings, `_update_audio_view` and the splash animation. Only the state those handlers change is kept.
- Threads and timers do not run. Each handler appends the work it starts to the `scheduled` log, with its delay as a label, and its completion handler is a separate method.
- The watchdog `Observer` runtime, its thread and `join` are left out. Starting it records a fresh `Mp3Handler`, and its events are the inputs of `OnCreated`.
- The filesystem is given as parameters: the set of existing paths, directory listings and `getsize` observations. `os.makedirs` is not modelled, and neither is the exception `_mover_a_papelera` swallows: a move is recorded, not performed.
- Transcription and the news writer (`_hilo_procesamiento`'s services) are left out: their result comes in as the `noticia` argument. Logging is left out too.
- HTTP and JSON libraries are not modelled. Replies are parameters. `json.loads` is a parameter function. A failing `response.json()` is not modelled.
- Text.Lower: only ASCII letters are lowered; Python's Unicode case mapping is not modelled.
- The trailing newline Tk adds to `get("1.0", END)` is not modelled. Every such read is stripped, which removes it.
- `on_created` may receive its path as bytes, and their decoding is not modelled: paths are strings.
- The priority font names are kept in their lower-case form, which is the only form the lookup uses.
- `_vaciar_papelera` and `_browse_folder` in the settings dialog are not part of this model.
- `_set_html_contenido` is not modelled as a renderer call: the window keeps the HTML string, and rendering is modelled separately by `HtmlRenderer.Render`.
- The watcher's handler is a field of the window, which the source keeps as a local of `_start_watcher` captured by the observer.
- App.PublicadorApp.Valid: relates the shown file name to the chosen file only by whether each is present, not by `basename`.
- App.TrashRenamesTakenName: requires the file name to have a non-empty extension, so the stamp goes between the stem and the extension.
- `_hilo_verificacion` and `_hilo_publicacion` are not modelled as functions: their work is the events they schedule, and their outcomes are the handlers' inputs.
- `url or ""` in `_publicacion_ok` becomes an `Option` for the link, and an absent link shows as empty.
- `load_resources` printing its error is not modelled.
- `datetime.now()` is the parameter `now`.
- The checklist label built with `corr.get("numero", "")` (ui/dialogs.py:372) is presentation only; the model keeps the number as an `Option`, absent when the correction has none.
- `self.texto_original` is an `Option`: the window always passes a four-key draft (app.py:730-741), so an empty dictionary, which `texto_original or {}` and the truth test at ui/dialogs.py:567 would also treat as absent, does not arise.
- Windows path rules are not modelled; the paths follow `posixpath`.

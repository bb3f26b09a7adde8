# Live inline image generator: a Dafny model

This project models the core of a SillyTavern extension. The extension watches character messages for an image directive, such as a `<span data-prompt="...">` tag in the message markup. For each directive it:

- asks an image provider for a picture or a video;
- stores the result with the message as a media record (`message.extra.custom_images`);
- shows it in a media container placed just before the directive.

The containers can be hidden, shown and regenerated. When a chat is loaded again they are rebuilt from the stored records. Two versions are modelled. `index.js` is current; it adds the ECG routing to a ComfyUI provider (txt2img and a two-stage img2img chain). `backup/index.js` is the older version.

Modules, in dependency order:

- `Wrappers` holds `Option`.
- `Text` holds `trim`, ASCII `toLowerCase`, `split`/`join`, `indexOf`, first-occurrence `replace`, and number rendering and parsing.
- `Dimensions` is `calculateDimensions`, plus the parsing of the aspect-ratio string.
- `Style` is `processPromptWithStyle` as keyword-list algebra.
- `Extract` is `extractImagePromptFromText`. A compiled pattern is taken as an input value.
- `Dispatch` is `generateWithECG` as a state machine over provider requests.
- `Media` holds the record type, the lookup by id, the hidden-flag update, the video test and the container markup.
- `Chat` holds the mutable state: the `Message`, `Container` and `Host` classes. `Host` logs saves, slash commands, provider requests, events, toasts and media appends.
- `Restore` is `restoreCustomImages`: the loop, and the fold that specifies it.
- `Generator` holds the state-changing operations of `index.js`.
- `Backup` holds the operations of `backup/index.js` that differ from `index.js`.

The regular-expression engine is not modelled. A `Pattern` says whether `new RegExp(source, 'is')` compiles and, if it does, gives the first match as its whole text and its capture groups. Ids, timestamps, the provider's answers and slash-command results are parameters. An asynchronous provider request is returned as a `Pending` value. `Generator.OnProviderResult` runs its callback when the answer arrives.

Where the code and its design notes disagree, the model follows the code:

- Directive test before trim. In ECG mode the three groups are tested for emptiness before they are trimmed. A blank prompt group therefore yields a directive with an empty prompt (`Extract.EcgAcceptsBlankPrompt`).
- Empty record list. An empty `custom_images` list (`[]`) is truthy. A message that has one takes the restore path, and its containers are removed and not regenerated.
- Restore pattern. Restoration always uses the legacy `regex` setting, also in ECG mode.
- Base size. A record made by `index.js` stores `min(ecgStaticWidth, ecgStaticHeight)` as its base size. The container shown at generation time uses `settings.baseSize`. So a restored container can show a different size line than the one first shown.
- Busy flag on a throw. In `index.js` a slash command that throws during regeneration leaves the container busy.
- Placeholder click. `handlePlaceholderClick` does not check the busy flag.

## Model

| member | source | states |
|---|---|---|
| `Text.TrimStart` | index.js:323 | the result is a suffix of the input that does not start with white space |
| `Text.TrimStartDropsSpace` | index.js:323 | everything `TrimStart` drops is white space |
| `Text.TrimEnd` | index.js:323 | the result is a prefix of the input that does not end with white space |
| `Text.TrimEndDropsSpace` | index.js:323 | everything `TrimEnd` drops is white space |
| `Text.Trim` | index.js:287 | `trim` gives a trimmed string, no longer than the input, and leaves a trimmed string as it is |
| `Text.TrimNoSep` | index.js:287 | trimming never brings in a separator |
| `Text.TrimAfterSpace` | index.js:304 | the space that `", "` puts before a keyword is removed again by `trim` |
| `Text.ToLower` | index.js:287 | lower-casing keeps the length and maps each character through the ASCII lower-case map |
| `Text.ToLowerNoUpper` | index.js:287 | a lower-cased string has no upper-case letter |
| `Text.ToLowerOfLower` | index.js:287 | lower-casing a string without upper-case letters changes nothing |
| `Text.ToLowerNoSep` | index.js:287 | lower-casing keeps a string free of non-letter separators |
| `Text.ToLowerKeepsTrimmed` | index.js:287 | lower-casing keeps a trimmed string trimmed |
| `Text.Split` | index.js:287 | `split` gives at least one piece, and no piece holds a separator |
| `Text.SplitNoSep` | index.js:287 | a string without separators splits into itself |
| `Text.SplitAfterPiece` | index.js:287 | a separator-free piece followed by a separator splits off as the first piece |
| `Text.SplitJoin` | index.js:287 | joining separator-free pieces with a separator and splitting again gives the pieces back |
| `Text.JoinSplit` | index.js:254 | splitting on one character and joining with it gives the string back |
| `Text.IndexFrom` | index.js:786 | the first occurrence at or after a position; none when there is none |
| `Text.IndexOf` | index.js:786 | the first occurrence of a pattern; none exactly when it does not occur |
| `Text.ReplaceFromIndex` | index.js:786 | the scan replaces the first occurrence from a position, or changes nothing |
| `Text.ReplaceFirstIndex` | index.js:786 | `replace` with a string pattern replaces the first occurrence only, or changes nothing |
| `Text.InsertBeforeFirst` | index.js:998 | replacing a directive by a container plus itself inserts the container just before the directive, which stays |
| `Text.NatToString` | index.js:681 | a template literal renders a natural number as one or more digits |
| `Text.ParseNatToString` | index.js:254 | the digits of a number read back as that number |
| `Text.ParseNumber` | index.js:254 | `Number` reads white space around decimal digits as their value, and a blank string as 0; every other string is read as none, which covers NaN but also the signed, exponent, hexadecimal and decimal-point spellings listed under Left out |
| `Text.ParseNumberNatToString` | index.js:254 | `Number` reads back a rendered natural number |
| `Dimensions.RoundDiv` | index.js:259-262 | `Math.round(p / q)` is the nearest integer, with halves rounded up |
| `Dimensions.Snap64` | index.js:267-268 | snapping gives a multiple of 64 within 32 of the value |
| `Dimensions.RoundDivMonotone` | index.js:259-262 | rounding a quotient is monotone |
| `Dimensions.RoundDivExact` | index.js:261-262 | an exact quotient rounds to itself |
| `Dimensions.Snap64Monotone` | index.js:267-268 | snapping to 64 is monotone |
| `Dimensions.CalculateDimensions` | index.js:253-270 | both sides are multiples of 64 |
| `Dimensions.ScaledAtLeastBase` | index.js:257-263 | the scaled side is never below the base size |
| `Dimensions.DimensionsKeepOrientation` | index.js:253-270 | landscape stays landscape, portrait stays portrait, and square stays square |
| `Dimensions.ParseRatio` | index.js:254 | an admitted ratio has two positive parts |
| `Dimensions.DimensionsFor` | index.js:253-270 | dimensions exist exactly for the admitted ratios, and are multiples of 64 |
| `Dimensions.ParseRatioRoundTrip` | index.js:254 | `"w:h"` written from two positive numbers parses back to them |
| `Dimensions.LandscapeExample` | index.js:253-270 | 16:9 at base size 512 gives 896 x 512 |
| `Dimensions.SquareExample` | index.js:253-270 | 1:1 at base size 500 gives 512 x 512 |
| `Style.Clean` | index.js:287 | a separator-free piece, trimmed and lower-cased, is empty or a keyword |
| `Style.CleanIsKeyword` | index.js:287 | the same, stated of the trimmed, lower-cased piece itself |
| `Style.Normalize` | index.js:287 | mapping and filtering never adds pieces, and separator-free pieces give keywords only |
| `Style.Keywords` | index.js:287 | `toKeywords` yields only non-empty, trimmed, lower-case, comma-free keywords |
| `Style.Without` | index.js:294-301 | `filter(x => !ys.includes(x))` keeps exactly the elements not in `ys` |
| `Style.Keep` | index.js:294-301 | the complementary filter keeps exactly the elements in `ys` |
| `Style.ApplyStyle` | index.js:277-304 | the keywords of the styled prompt are the keyword algebra of the three keyword lists |
| `Style.WithoutKeywords` | index.js:294-296 | filtering a keyword list leaves a keyword list |
| `Style.StyledAreKeywords` | index.js:294-304 | the styled list is a keyword list |
| `Style.Lookup` | index.js:25-34 | exactly the two styles `photo_realistic` and `hentai_manga` are known |
| `Style.ProcessPromptWithStyle` | index.js:277-304 | an unknown style returns the prompt unchanged; a known one yields the styled keywords |
| `Style.Spaced` | index.js:304 | each keyword after a `","` carries the space of the joiner |
| `Style.JoinSpaced` | index.js:304 | joining spaced keywords with `","` is a space followed by the `", "` join |
| `Style.CleanKeyword` | index.js:287 | a keyword, with or without the joiner's space in front, cleans to itself |
| `Style.NormalizeSpaced` | index.js:287 | cleaning spaced keywords gives the keywords |
| `Style.NormalizeCleaned` | index.js:287 | pieces that each clean to a non-empty keyword normalize to exactly those keywords, in order |
| `Style.JoinAsParts` | index.js:304 | the `", "` join is the first keyword and the spaced others joined with `","` |
| `Style.PartsNoSep` | index.js:287 | those pieces hold no separator |
| `Style.NormalizeParts` | index.js:287 | cleaning those pieces gives the keywords back |
| `Style.KeywordsJoin` | index.js:287-304 | reading the keywords of a `", "`-joined keyword list gives the list back |
| `Style.WithoutConcat` | index.js:294-301 | the filter distributes over concatenation |
| `Style.WithoutSubsequence` | index.js:294-301 | `filter` keeps the order of what it keeps: the result is a subsequence of the input |
| `Style.WithoutNoop` | index.js:294-296 | filtering out values that are absent changes nothing |
| `Style.KeepNone` | index.js:294-301 | keeping values that are absent gives the empty list |
| `Style.Partition` | index.js:294-301 | kept plus dropped is the whole list, as a multiset |
| `Style.WithoutAsKeep` | index.js:299-301 | filtering against the cleaned list is keeping after filtering, when membership agrees |
| `Style.StyledKeywordsMeaning` | index.js:294-304 | a keyword is in the result iff it is a style positive or a user keyword that is not negative; negatives are removed from the user side only; the two sides are disjoint; the style side lists positives in their declared order and the user side user keywords in the user's order |
| `Style.StyledTwice` | backup/index.js:283-293 | applying the algebra to its own output keeps the multiset, and the list when positives and negatives are disjoint |
| `Style.StyleIdempotent` | backup/index.js:266-293 | styling a styled prompt again gives the same keywords as a multiset, and the same string when no positive is negative |
| `Extract.Group` | index.js:320-333 | `match[0]` is the whole match, and a missing group is undefined |
| `Extract.ExtractImagePrompt` | index.js:313-340 | a directive is found iff the pattern compiles, matches, and the mode's groups are non-empty before trimming; prompt, type and dialogue are the trimmed groups; legacy mode gives `txt2img` and no dialogue |
| `Extract.DirectiveOccurs` | index.js:313-340 | the full match of a directive occurs in the markup |
| `Extract.EcgAcceptsBlankPrompt` | index.js:327-333 | an ECG prompt group of white space only gives a directive with an empty prompt |
| `Extract.ToastExcludesDirective` | index.js:335-339 | the invalid-pattern `toastr.error` is shown at most once per extraction, exactly when the pattern does not compile, and then no directive is found |
| `Dispatch.VideoPrompt` | index.js:904-908 | the video prompt quotes the dialogue and the image prompt at fixed places |
| `Dispatch.GenerateWithEcg` | index.js:882-952 | `txt2img` and `img2img` issue a request with the static settings, `txt2img` final and `img2img` a base-image stage; any other type delivers the unknown-type error |
| `Dispatch.VideoRequest` | index.js:932-944 | the video request has the dynamic workflow and dimensions, the base image as input, the video prompt, the same message, and the final callback |
| `Dispatch.OnProviderComplete` | index.js:917-944 | only a base-image success issues another request (the video); any other answer is delivered as it is |
| `Dispatch.Txt2ImgRun` | index.js:885-897 | txt2img issues one request and delivers its result |
| `Dispatch.Img2ImgBaseFails` | index.js:917-922 | a failed base image delivers the error once and issues no video request |
| `Dispatch.Img2ImgChain` | index.js:899-948 | a base image issues exactly one video request, with the dynamic settings, the base URL as input and the video prompt, and delivers its result |
| `Dispatch.UnknownTypeRun` | index.js:949-951 | an unknown type delivers the error at once and issues nothing |
| `Dispatch.RunBounded` | index.js:882-952 | any run issues at most two requests, all for the message, and delivers once the provider has answered twice |
| `Media.FindImage` | index.js:196-199 | `find` gives the first record with the id, or none exactly when no record has it |
| `Media.WithHiddenFrame` | index.js:602-613 | the update sets the flag of the found record only; every other record and field is kept |
| `Media.FindImageByIds` | index.js:196-199 | the lookup depends on the ids only |
| `Media.WithHiddenKeepsLookup` | index.js:602-613 | after the update every id finds the same record position |
| `Media.HideThenRestore` | index.js:554-565 | hiding and then restoring the previous flag gives the records back |
| `Media.ToLowerConcat` | index.js:354 | lower-casing distributes over concatenation |
| `Media.VideoByExtension` | index.js:354 | any name ending in `.mp4` or `.webm` is a video, and the test ignores case |
| `Media.EndsWithExtension` | index.js:354 | a lower-case extension survives lower-casing of the name |
| `Media.ViewOf` | index.js:763-774 | a restored container shows the record's id, URL, prompt, hidden flag and settings snapshot, and a video only where the version sniffs |
| `Media.RenderMarksHidden` | index.js:359-411 | the container's markup opens with the `hidden` class exactly when the view is hidden |
| `Media.RenderHasId` | index.js:359-411 | the container's markup carries the view's id in its `data-image-id` attribute, right after the class |
| `Chat.FindImageData` | index.js:196-199 | `findImageData` gives the position of the first record with the id; none exactly when the message is missing, has no record list, or no record has the id |
| `Restore.Ids` | index.js:757 | the ids of the records, in order |
| `Restore.DistinctMeaning` | index.js:757-762 | `Distinct` keeps every element once and nothing else |
| `Restore.RestoreAllSnoc` | index.js:757-801 | the fold over one more record is one more loop step |
| `Restore.ThrewStays` | index.js:777 | once `new RegExp` has thrown, the remaining records change nothing |
| `Restore.RestoreRendersEachIdOnce` | index.js:757-801 | a compiling pattern renders each distinct id once, in order, and every event is an `EventImgRestored` of this message for a rendered id |
| `Restore.RestoreInvalidPattern` | index.js:777 | a pattern that does not compile stops at the first record, with no container and no event |
| `Restore.StepKeepsDirective` | index.js:777-796 | one step with the directive present inserts before it, keeps it, and announces the record |
| `Restore.RestoreKeepsDirective` | index.js:777-796 | with the directive present it survives every insertion, and each rendered id gets its `EventImgRestored`, in order |
| `Restore.StepBeforeDirective` | index.js:783-787 | one rendering step puts the new container after those placed earlier and just before the directive |
| `Restore.BeforeDirectiveSnoc` | index.js:757-801 | the placement of `RestoreBeforeDirective` carries over from a list of records to that list plus one |
| `Restore.RestoreBeforeDirective` | index.js:757-801 | when the directive stays first, the final markup is the text before it, every rendered container in record order, then the directive and the rest |
| `Restore.RestoreWithoutMatchAppends` | index.js:797-800 | without a match the containers are only appended, and nothing is announced |
| `Restore.RestoreCustomImages` | index.js:733-802 | the loop does nothing when container mode is off or there are no records; otherwise the markup and events are those of the fold `RestoreAll` |
| `Generator.ImagineCommand` | index.js:680 | the command ends with the quoted prompt |
| `Generator.GenerationSplice` | index.js:995-999 | on a hit the container goes just before the first occurrence of the directive, which stays right after it |
| `Generator.ProcessAndDisplayResult` | index.js:963-1015 | container mode pushes exactly one record, splices a container only when re-extraction hits, and adds the invalid-pattern toast of that re-extraction; inline mode sets the image and the inline flag; one save either way |
| `Generator.UpdateImageHiddenState` | index.js:602-613 | the found record gets the flag and the chat is saved once; with no message or no record nothing changes and nothing is saved |
| `Generator.HandlePlaceholderClick` | index.js:587-597 | the container is shown and the flag is stored as for a show, busy or not |
| `Generator.RefreshKeepsRecord` | index.js:638-660 | the refresh changes only the prompt fields and the type, and only when the markup has a directive with a prompt |
| `Generator.RefreshStable` | index.js:638-660 | refreshing again from the same markup changes nothing more |
| `Generator.UrlUpdated` | index.js:690-727 | a URL updates the media, the prompt shown, the record's URL and time, and saves; no URL shows a toast; either way the busy flag is cleared and other records are kept |
| `Generator.UpdateImageUrl` | index.js:690-727 | the container, record and host end as `UrlUpdated` says |
| `Generator.RegenerateImage` | index.js:619-689 | a busy container or one without a record is left alone; otherwise busy, refresh from the markup, then the ECG route or the workflow switch and `/imagine`; a throwing command leaves it busy |
| `Generator.RegenerateFound` | index.js:636-689 | from a found record: busy, refreshed, then one of the two branches |
| `Generator.RegenerateWithEcg` | index.js:664-676 | the routed request is issued and awaited, or an unknown type clears the busy flag |
| `Generator.RegenerateWithImagine` | index.js:678-688 | the switch, `/imagine`, then `updateImageUrl`; a throw stops with the flag still set |
| `Generator.RunRoute` | index.js:664-688 | from the busy state, the configured mode's route: the ECG request or the switch and `/imagine`, as `RouteRan` says |
| `Generator.HandleImageControlClick` | index.js:540-581 | a busy container ignores every action; hide and show set the class and store the flag and touch nothing else; fullscreen opens the media only; regenerate regenerates and keeps the hidden flag; only the named container, record and host logs can change |
| `Generator.ControlAction` | index.js:554-570 | on an idle container: hide and show set the class and store the flag without touching the fullscreen viewer; fullscreen opens the media and changes nothing else; an unknown action changes nothing |
| `Generator.SetHidden` | index.js:556-564 | the hidden class is set as asked and the flag is stored as `updateImageHiddenState` stores it |
| `Generator.HandleEcgGeneration` | index.js:839-874 | with a directive: the status echo, then the first request for its type with the styled prompt; without one: only the invalid-pattern toast when the pattern does not compile; the message, saves and events are never touched |
| `Generator.EcgFound` | index.js:853-868 | the status echo, then the first request of the chain for the directive's type, styled prompt and dialogue, awaited as a generation job; an unknown type issues nothing |
| `Generator.HandleLegacyGeneration` | index.js:1022-1058 | without a directive: only the invalid-pattern toast, when the pattern does not compile; with one: as `LegacyFound` says |
| `Generator.LegacyFound` | index.js:1028-1056 | the echo and `/imagine` with the styled prompt and the computed size; a URL is displayed; otherwise a failure echo and the message and what is shown stay as they were |
| `Generator.FinishLegacyGeneration` | index.js:1041-1056 | after `/imagine`: a truthy `pipe` is displayed and nothing is echoed; a missing URL echoes the failure and a throw echoes its message, with the message, saves and events untouched |
| `Generator.HandleCharacterMessage` | index.js:806-831 | disabled or not a character message: nothing; records in container mode: restore with the legacy pattern and nothing else; otherwise generation in the configured mode, with the whole effect of `handleEcgGeneration` or `handleLegacyGeneration` on the message and every host log |
| `Generator.OnProviderResult` | index.js:655-674 | with the generation callback of index.js:860-867: the chain goes on with the video request and nothing else changes, or the callback runs: a regeneration clears busy on an error or updates on success; a generation displays a success into the job's message and changes nothing on an error; no slash command and no fullscreen ever |
| `Generator.DeliverRegeneration` | index.js:665-674 | the regeneration callback: an error clears the busy flag only; a URL goes through `updateImageUrl` |
| `Backup.BackupExtract` | backup/index.js:302-319 | a directive iff the pattern compiles, matches and group 1 is non-empty; the prompt is the trimmed group 1 and the full match is `match[0]` |
| `Backup.BackupAgreesWithLegacy` | backup/index.js:302-319 | the older extraction decides and extracts as the newer legacy mode does |
| `Backup.NextStop` | backup/index.js:915 | the first `<` or line break from a position, or none |
| `Backup.OpensConcat` | backup/index.js:915 | counting `<` distributes over concatenation |
| `Backup.OpensNone` | backup/index.js:915 | text without `<` has none |
| `Backup.EmptyTagTextShape` | backup/index.js:915 | emptying tag content never lengthens the text and keeps every `<` |
| `Backup.EmptyTagTextNoClose` | backup/index.js:915 | text without `>` is unchanged |
| `Backup.EmptyOneTag` | backup/index.js:915 | the content of one tag, on one line, is dropped |
| `Backup.SpanKeepsDirective` | backup/index.js:926-936 | wrapping the directive in an error span keeps it in the markup |
| `Backup.ErrorSpansHoldDirective` | backup/index.js:928-935 | both error spans hold the directive right after the opening tag |
| `Backup.BackupDisplay` | backup/index.js:827-925 | a URL is shown as a container before the re-extracted directive, or inline with the tag content emptied |
| `Backup.BackupInsertContainer` | backup/index.js:830-882 | the record is pushed; a re-extraction hit inserts the container, announces it and saves; a miss returns before the save |
| `Backup.BackupInlineImage` | backup/index.js:908-925 | the URL becomes the inline image, the directive's tag content is emptied, and the chat is saved |
| `Backup.BackupRunCommands` | backup/index.js:815-821 | the echo, the switch and `/imagine`, stopping at the first throw, and the error thrown |
| `Backup.BackupShowFailure` | backup/index.js:926-937 | no URL gives the failed span and a revert after 3000 ms; a throw gives the error span, a toast and a revert after 5000 ms |
| `Backup.BackupGenerate` | backup/index.js:788-939 | with a directive: the commands, then the display of a URL or the failure span with its revert; the records are untouched on failure |
| `Backup.BackupGenerateFound` | backup/index.js:815-938 | the same, from the found directive |
| `Backup.BackupHandleCharacterMessage` | backup/index.js:763-940 | disabled or not a character message: nothing; records in container mode: restore with image-only containers and nothing else; otherwise generation, with the whole effect of `BackupGenerate` on the message and every host log |
| `Backup.BackupRegenerateTail` | backup/index.js:642-683 | the `try` with the `finally`: the switch, `/imagine`, the update or a toast, and the busy flag cleared on every path |
| `Backup.BackupRegenerateFound` | backup/index.js:619-683 | the prompt overwrite from the markup, then the `try` with that prompt, styled for `/imagine` |
| `Backup.BackupRefreshed` | backup/index.js:619-638 | a match with group 1 sets the prompt and the original prompt to the trimmed group; otherwise the record is kept |
| `Backup.BackupRegenerateImageAsWritten` | backup/index.js:599-684 | as written: a pattern that does not compile throws before the `try` and leaves the container busy |
| `Backup.BackupRegenerateImage` | backup/index.js:599-684 | corrected: the busy flag ends as it began on every path; an invalid pattern shows a toast; a valid one regenerates as `BackupRegenerated` says |

## Left out

- The regular-expression engine. A pattern is an input value. It either fails to compile or gives the first match. Which texts the default patterns match is not modelled.
- `String.prototype.replace` substitution patterns (`$&`, `$'` and the rest). Replacement text is inserted literally, as if it held no `$`.
- Lower-casing is ASCII only, with no Unicode case mapping.
- Floating-point rounding. `Math.round(baseSize * (w / h))` is modelled as exact rational round-half-up.
- Aspect-ratio strings that `Number` reads as NaN, zero or a fraction. `DimensionsFor` gives none for them, and `/imagine` then prints `NaN`. Such strings are not otherwise modelled.
- Text.ParseNumber: reads only plain digits. `Number` also reads `+16`, `1e1`, `0x10`, `0b10`, `16.0` and similar spellings as whole numbers; the model reads them as none, so for such a ratio `DimensionsFor` gives none where the source computes a size.
- Timers. `setTimeout` reverts are returned as `Revert` values and not run. Events are logged at once, not after the 10 ms delay. The 100 ms backup append of the older version, and the 1 s wait between the img2img stages, are not modelled.
- The fullscreen viewer, Panzoom, clipboard copy, the settings UI, and the duplicate listener registration. These are browser wiring. Fullscreen is only recorded as the URL it opens.
- Control-button and SVG markup inside a container. `Render` keeps the id, the classes, the media element, the prompt and the size line.
- The `t` translation tag is taken as the identity.
- `/echo` and `saveChat` are assumed not to throw.
- The message id the provider passes back to the generation callback is assumed to be the request's own `messageId`, so `OnProviderResult` displays into the job's message (index.js:860-867, 965-967).
- A provider that answers with neither a URL nor an error.
- Removal of the existing containers by jQuery. `stripped`, the markup without them, is a parameter.
- `imageData.settings || getSettings()`: every record is assumed to carry its settings snapshot.
- The invalid-pattern toast of the older extraction (backup/index.js:316). `BackupExtract` gives none, as its result does. The toast of `index.js` is modelled (`Extract.InvalidPatternToasts`).
- The hide and show paths of `backup/index.js`. They are the same code as in `index.js` and are modelled there.
- The markup re-read after `/imagine` in the older version. It is a parameter (`latest`).
- jQuery `data()` caching of the image id.
- Generator.UpdateImageUrl: sets `src` to the URL in every case. When the media kind changes, the source instead inserts a new element whose `src` is the literal text `${newImageUrl}` (a single-quoted template, index.js:697-703). That element swap is not modelled.

## Findings

| source | as written | input that shows it | evidently intended | confidence | as-written member | corrected member |
|---|---|---|---|---|---|---|
| backup/index.js:625 | `new RegExp(settings.regex, 'is')` runs after the busy flag is set and before the `try`, so its `finally` does not run when the pattern does not compile | an idle container whose record exists, with the `regex` setting `(` | the busy flag is cleared on every path, as the `finally` comment says, and an error toast is shown | not executed | `Backup.BackupRegenerateImageAsWritten` | `Backup.BackupRegenerateImage` |

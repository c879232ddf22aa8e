# mp3-sync-app: the synchronisation core in Dafny

This project models the decision logic that keeps two MP3 libraries in step.
Source A is the DJ's master collection and Source B is its copy.
Each module follows one file of the Electron main process, or the pairing rule of the renderer:

- `Mp3Tag` covers `Mp3TagService`:
  - `readTags` resolves frame identifiers in the tag object NodeID3 returns;
  - `writeTags` builds the object handed to `NodeID3.update`.
  - The library is a class `NodeId3` whose `read` and `update` results are inputs; every update call is logged in `updates`.
- `TagTransformer` and `Genre` cover `TagTransformerService`:
  - flattening of the multi-value frames;
  - the genre clean-up, with the two global regular expressions modelled as the JavaScript engine runs them;
  - the composite comment;
  - `transformAll`, which mutates the record in place;
  - `isBidirectional`.
- `FileState` covers `SourceFileStateService`:
  - the incremental scan that re-reads the `TXXX:DJBIBLIOTHEK` tag only for new or modified files;
  - `listInLibrary`.
- `Pairing` covers `PairingService`, the `FileMappingState` table keyed by `sourceAPath`, and the update that stamps `lastSyncTimestamp`.
- `PairingPage` covers the pairing rule of `PairingPage.tsx`:
  - the `track_artist_title.mp3` regular expression;
  - the lookup of `artist_track_title.mp3` by lower-case basename;
  - the selection set, with `toggle`, `selectAll` and `clearAll`;
  - the list of mappings to save.
- `Sync` covers `SyncService`:
  - `getAllReadKeys`;
  - `previewSync`, the per-tag classification driven by modification times;
  - `runSync`, which writes the conflict-free entries and stamps their mappings.
- `Bidirectional` covers `BidirectionalSyncService.syncFile`, a three-way merge of one file pair against the `SyncStateTag` ledger of last-seen values.
- `Values`, `Assoc`, `Text` and `Wrappers` are shared helpers:
  - `Values` holds JavaScript tag values (null, string, array, object), truthiness, `String(v)` and `===` between values from separate reads;
  - `Assoc` holds insertion-ordered keyed tables, standing for JavaScript objects and database tables;
  - `Text` holds string helpers;
  - `Wrappers` holds `Option` and `Result`.

Database tables, tag records and the selection are classes whose methods update their fields.
Every such method is specified by a function of the old state, and the lemmas state the promised properties of those functions.
Timestamps are `nat`, with 0 standing for the epoch.
`now`, the modification-time lookup and the directory listing are parameters.

Quirks of the code are modelled as written:
- `runSync` writes every pending `to` value to the Source-B path. A bidirectional tag that changed only on B yields `{from: A, to: B}`, so B's own value is written back to B (`Sync.BackwardChangeRewritesB`). B's value therefore never reaches A; the model follows the code.
- The ledger stores `String(curA)` and `String(curB)`, so a missing value is stored as the string `"null"`.
  - Because of this, a tag absent on A but present as a string on B is copied from A to B again on a later sync as long as neither file's read has changed (for example when the write did not change B's read) (`Bidirectional.ResyncCopiesMissingTag`).
  - A string value survives the ledger unchanged (`Bidirectional.ResyncKeepsStrings`).
- `getAllReadKeys` does not list `TXXX:keinelyrics`, which `buildComment` consults. The lyrics hint is read only when it is itself configured as bidirectional (`Sync.ReadKeysCover`).
- `cleanGenre` is not idempotent: `"a ‖ b ‖ c"` cleans to `"b ‖ c"`, which cleans to `"c"` (`Genre.CleanGenreNotIdempotent`). The split/trim/filter/join step on its own is idempotent (`Genre.PiecesOfJoin`).

## Model

| member | source | states |
|---|---|---|
| Mp3Tag.Resolve | packages/main/src/app/services/mp3-tag.service.ts:50-86 | only a `TXXX:` lookup can throw, and without a `userDefinedText` array it finds nothing; `COMM` is found exactly when the comment is truthy; any other identifier is found exactly when `raw`, its alias field or its own field has it |
| Mp3Tag.ReadSpec | packages/main/src/app/services/mp3-tag.service.ts:18-105 | the record has at most one entry per identifier, and only for requested identifiers |
| Mp3Tag.ReadTags | packages/main/src/app/services/mp3-tag.service.ts:18-105 | the returned record is a fresh object equal to the specification `ReadSpec` of what the library read |
| Mp3Tag.ReadSpecLookup | packages/main/src/app/services/mp3-tag.service.ts:18-105 | with no tag object, or when a lookup throws, the record is empty; otherwise an identifier is present exactly when it was requested and resolves to a value, and it holds that value; keys never repeat |
| Mp3Tag.CollectFind | packages/main/src/app/services/mp3-tag.service.ts:47-92 | the loop's record holds only requested identifiers, each with the value it resolved to, and only those that resolved |
| Mp3Tag.TxxxFirstMatch | packages/main/src/app/services/mp3-tag.service.ts:50-60 | `TXXX:<desc>` takes the value of the first user-defined text entry whose description equals `desc` ignoring case, when every earlier entry is a non-match |
| Mp3Tag.ResolvePrecedence | packages/main/src/app/services/mp3-tag.service.ts:61-86 | in the record `readTags` returns, an identifier other than `TXXX:…` and `COMM` holds `raw[id]` when present, else the alias field, else the field named `id`; `COMM` holds the comment's `text` when the comment is an object with one, else a truthy comment itself, and is missing for a missing or falsy comment |
| Mp3Tag.WriteTags | packages/main/src/app/services/mp3-tag.service.ts:107-189 | exactly one update call is logged, with the path and `Payload` of the record; the result is true exactly when the library returned `true` |
| Mp3Tag.PayloadTxxx | packages/main/src/app/services/mp3-tag.service.ts:116-160 | the payload's `userDefinedText` holds one `{description, value: String(v)}` entry per `TXXX:` key in key order, and is absent when there is none |
| Mp3Tag.PayloadComment | packages/main/src/app/services/mp3-tag.service.ts:128-149 | a string `COMM` becomes `{language: 'eng', text}`; an object with `text` keeps a non-empty string language, else 'eng'; anything else writes no comment |
| Mp3Tag.PayloadPlain | packages/main/src/app/services/mp3-tag.service.ts:150-153 | every other key is copied into the payload unchanged |
| TagTransformer.Flat | packages/main/src/app/services/tag-transformer.service.ts:45 | an array becomes a string; any other value is unchanged |
| TagTransformer.FlatSplits | packages/main/src/app/services/tag-transformer.service.ts:45 | for strings without commas, splitting the joined text at `,` gives back every element in order, each later one behind the space of `", "` |
| TagTransformer.FlattenFramesLookup | packages/main/src/app/services/tag-transformer.service.ts:42-47 | after the loop the listed frames hold their flattened values and every other key its old value; the key list is unchanged |
| TagTransformer.FlattenMultiValues | packages/main/src/app/services/tag-transformer.service.ts:42-47 | the record becomes `Flattened` of its old contents |
| TagTransformer.Typ | packages/main/src/app/services/tag-transformer.service.ts:70-77 | the type code is one of six; `A`, `Vfemale`, `Vduet` and `Vmixed` are given only when the genre mentions `a cappella`, `female vocals`, `duet` and `mixed vocals` respectively |
| TagTransformer.TypCodes | packages/main/src/app/services/tag-transformer.service.ts:70-77 | the type code is one of six, and each code is characterised exactly by the test order: `A` for a cappella; `I` for instrumental lyrics or no voice phrase; `Vfemale` for female vocals; `Vmale` for male but not female vocals; `Vduet` for a duet without male vocals; `Vmixed` for mixed vocals without male vocals or duet |
| TagTransformer.FemaleVocalsShadowMale | packages/main/src/app/services/tag-transformer.service.ts:73-74 | a genre mentioning female vocals also mentions male vocals, and the earlier test makes it `Vfemale` |
| TagTransformer.Comment | packages/main/src/app/services/tag-transformer.service.ts:61-92 | building the comment fails exactly when the genre or the lyrics hint is a truthy value that is not a string |
| TagTransformer.FieldPartsCount | packages/main/src/app/services/tag-transformer.service.ts:79-87 | the field loop contributes one part per truthy field |
| TagTransformer.FieldPartsHave | packages/main/src/app/services/tag-transformer.service.ts:79-87 | a truthy field contributes `[ <prefix><value> ]` |
| TagTransformer.CommentShape | packages/main/src/app/services/tag-transformer.service.ts:61-92 | one type part plus one part per truthy field; energy first when present, then type, and the existing comment last |
| TagTransformer.CommentLines | packages/main/src/app/services/tag-transformer.service.ts:91 | when no part holds a line break, the comment splits back into its parts |
| TagTransformer.CollectFieldParts | packages/main/src/app/services/tag-transformer.service.ts:79-87 | the loop over the four labelled fields collects `FieldParts` of them, in their fixed order |
| TagTransformer.BuildComment | packages/main/src/app/services/tag-transformer.service.ts:61-92 | the loop's result equals the comment specification, including its failure |
| TagTransformer.PreparedLookup | packages/main/src/app/services/tag-transformer.service.ts:96-99 | after flattening and genre clean-up only TCON, TCMP and TCOM can differ; TCON is cleaned only when it is then a string |
| TagTransformer.TransformedLookup | packages/main/src/app/services/tag-transformer.service.ts:95-102 | COMM is always the built comment; TCMP and TCOM are flattened; TCON is flattened and then cleaned if a string; other keys keep their values; only COMM can be new |
| TagTransformer.TransformedFails | packages/main/src/app/services/tag-transformer.service.ts:95-102 | the transformation fails exactly when, after the first two steps, the genre or the lyrics hint is a truthy non-string |
| TagTransformer.TransformAll | packages/main/src/app/services/tag-transformer.service.ts:95-102 | on success the same record is returned, mutated into `Transformed` of its old contents; on failure it is left flattened and genre-cleaned |
| TagTransformer.IsBidirectional | packages/main/src/app/services/tag-transformer.service.ts:105-107 | true exactly when the tag is in the configured list |
| Genre.StripAnnotations | packages/main/src/app/services/tag-transformer.service.ts:51 | the replacement never lengthens the text, and text without `‖` comes out unchanged |
| Genre.StripDecades | packages/main/src/app/services/tag-transformer.service.ts:53 | the replacement never lengthens the text, and text without digits comes out unchanged |
| Genre.CleanGenre | packages/main/src/app/services/tag-transformer.service.ts:50-58 | splitting the cleaned genre again gives exactly the clean pieces of the replaced text, and the result is empty exactly when there are none |
| Genre.Pieces | packages/main/src/app/services/tag-transformer.service.ts:54-57 | every piece left is non-empty, holds no comma and has no white space at either end |
| Genre.CleanGenrePieces | packages/main/src/app/services/tag-transformer.service.ts:50-58 | the cleaned genre is the clean pieces of the replaced text joined by ", ", and splitting it again gives the same pieces |
| Genre.PiecesOfJoin | packages/main/src/app/services/tag-transformer.service.ts:54-57 | clean pieces joined by ", " and cleaned again come back unchanged |
| Genre.DecadeRemoved | packages/main/src/app/services/tag-transformer.service.ts:53 | a standalone four-digit-plus-`s` token is deleted, and the text around it is treated as if it were not there |
| Genre.NoDigitKept | packages/main/src/app/services/tag-transformer.service.ts:53 | text without digits passes the decade replacement unchanged |
| Genre.AnnotationCutAtStart | packages/main/src/app/services/tag-transformer.service.ts:51 | at the start, the text up to the first `‖` and the white space after it is cut, and later `‖`s stay |
| Genre.AnnotationCutAfterSemicolon | packages/main/src/app/services/tag-transformer.service.ts:51 | after a `;` the same prefix is cut and the `;` is kept |
| Genre.AnnotationsSplitAtSemicolon | packages/main/src/app/services/tag-transformer.service.ts:51 | on `x;rest` the replacement does to `x` what it does to `x` alone, then carries on from the `;` |
| Genre.AnnotationCutInSegment | packages/main/src/app/services/tag-transformer.service.ts:51 | in `x;pre‖post` the segment after the `;` loses its prefix `pre‖` and the white space after it, while `x` is replaced as on its own |
| Genre.NoSemicolonKept | packages/main/src/app/services/tag-transformer.service.ts:51 | past the first position, text without `;` is copied unchanged |
| Genre.OneAnnotation | packages/main/src/app/services/tag-transformer.service.ts:50-58 | a genre `pre ‖ rest` with a clean, digit-free `rest` cleans to `rest` |
| Genre.CleanGenreNotIdempotent | packages/main/src/app/services/tag-transformer.service.ts:50-58 | `"a ‖ b ‖ c"` cleans to `"b ‖ c"`, and that cleans to `"c"` |
| FileState.ScanAndUpdate | packages/main/src/app/source-file-state/source-file-state.service.ts:22-81 | a missing root fails with the table unchanged; otherwise the result is (number of listed files, number of stale files) and the table is `ScanRows` of the old one |
| FileState.ScanFile | packages/main/src/app/source-file-state/source-file-state.service.ts:30-78 | the row is rewritten exactly when the file has a time and needs a read, and the result says whether it was |
| FileState.ScanLookup | packages/main/src/app/source-file-state/source-file-state.service.ts:30-78 | after the scan a listed, stale file holds its time, the freshly read flag and `now`; every other row is unchanged |
| FileState.ScanKeepsUnique | packages/main/src/app/source-file-state/source-file-state.service.ts:56-75 | a file never gets two rows: a missing row is created, an existing one updated |
| FileState.ScanCountBound | packages/main/src/app/source-file-state/source-file-state.service.ts:77-80 | `updated` never exceeds `total` |
| FileState.ScanMakesUpToDate | packages/main/src/app/source-file-state/source-file-state.service.ts:40-49 | after a scan no listed file needs a read |
| FileState.UpToDateScan | packages/main/src/app/source-file-state/source-file-state.service.ts:40-49 | over an up-to-date table a scan changes nothing and counts no update |
| FileState.SecondScan | packages/main/src/app/source-file-state/source-file-state.service.ts:27-80 | a second scan with unchanged times, at any later clock, reports no update and leaves the table as it is |
| FileState.MembershipOfRead | packages/main/src/app/source-file-state/source-file-state.service.ts:51-54 | the flag is true exactly when `TXXX:DJBIBLIOTHEK` reads as a string whose lower case is not `nein`; no tags or an absent tag give false |
| FileState.InLibrary | packages/main/src/app/source-file-state/source-file-state.service.ts:83-88 | the listing is exactly the (path, time) of the rows flagged in the library |
| Pairing.Upsert | packages/main/src/app/pairing/pairing.service.ts:20-24 | the table becomes `Upserted` of the old one and keeps one row per key |
| Pairing.UpsertMappings | packages/main/src/app/pairing/pairing.service.ts:17-29 | every entry is upserted in order, and the count is the number of entries |
| Pairing.SaveMappings | packages/main/src/app/pairing/pairing.service.ts:37-49 | the same effect on the table as `upsertMappings`, returning `{count}` |
| Pairing.UpsertedAllLookup | packages/main/src/app/pairing/pairing.service.ts:18-26 | a key named by an entry holds the last such entry's `sourceBPath` and keeps its sync time (none for a new row); other keys keep their rows |
| Pairing.UpsertedAllUnique | packages/main/src/app/pairing/pairing.service.ts:20-24 | the table never holds two rows with the same `sourceAPath` |
| Pairing.Listed | packages/main/src/app/pairing/pairing.service.ts:31-35 | one `{sourceAPath, sourceBPath}` pair per row, in row order |
| Pairing.ListedFind | packages/main/src/app/pairing/pairing.service.ts:31-35 | a pair is listed exactly when its Source-A path has a row pointing at that Source-B path |
| Pairing.Stamp | packages/main/src/app/bidirectional-sync/bidirectional-sync.service.ts:88-91 | the row of the path gets `lastSyncTimestamp = now`; the result says whether the row existed |
| Pairing.StampedLookup | packages/main/src/app/sync/sync.service.ts:146-149 | stamping changes the sync time of that one row and nothing else |
| PairingPage.Basename | packages/renderer/src/pages/PairingPage.tsx:72 | the result is the suffix after the last `/` or `\`, and holds neither |
| PairingPage.ParseName | packages/renderer/src/pages/PairingPage.tsx:70-73 | a match has a digit track, an artist without `_`, a one-line title, all non-empty, and the name ends in `.mp3` in any case |
| PairingPage.ParseNameSound | packages/renderer/src/pages/PairingPage.tsx:70-73 | a match yields digits, an artist without `_` and a one-line title, and the name is `track_artist_title` plus `.mp3` in any letter case |
| PairingPage.ParseNameComplete | packages/renderer/src/pages/PairingPage.tsx:70-73 | every name of that shape matches, with exactly those groups |
| PairingPage.BuildDestMap | packages/renderer/src/pages/PairingPage.tsx:68-69 | the `forEach` fills `destMap` with one `set` per destination, in order |
| PairingPage.DestMapLookup | packages/renderer/src/pages/PairingPage.tsx:68-69 | a key maps to the last destination whose lower-case basename is that key, and is absent when there is none |
| PairingPage.SuggestionsOf | packages/renderer/src/pages/PairingPage.tsx:71-81 | one suggestion per source, in source order, each for its own path |
| PairingPage.Suggestions | packages/renderer/src/pages/PairingPage.tsx:67-82 | the memo equals the suggestions of the sources against the filled `destMap` |
| PairingPage.SuggestionTarget | packages/renderer/src/pages/PairingPage.tsx:71-81 | `destPath` and `destName` are set together; the name is the swapped candidate; the path is the last destination with that basename; both are null when the regex fails or no destination matches |
| PairingPage.OfferedPathNonEmpty | packages/renderer/src/pages/PairingPage.tsx:84 | an offered destination path is never empty, so the truthiness filter only asks whether there is one |
| PairingPage.AllMatches | packages/renderer/src/pages/PairingPage.tsx:84 | exactly the source paths whose suggestion has a destination |
| PairingPage.Selection.constructor | packages/renderer/src/pages/PairingPage.tsx:57 | the selection starts as the already mapped paths |
| PairingPage.Selection.Toggle | packages/renderer/src/pages/PairingPage.tsx:86-92 | the selection becomes `Toggled` of the old one |
| PairingPage.ToggledFlips | packages/renderer/src/pages/PairingPage.tsx:86-92 | toggling flips membership of that path alone, and toggling twice restores the selection |
| PairingPage.Selection.SelectAll | packages/renderer/src/pages/PairingPage.tsx:94 | the selection becomes the set of matched paths |
| PairingPage.Selection.ClearAll | packages/renderer/src/pages/PairingPage.tsx:95 | the selection becomes empty |
| PairingPage.ToSave | packages/renderer/src/pages/PairingPage.tsx:101-103 | exactly the selected suggestions that have a destination, as `{sourceAPath, sourceBPath}` |
| PairingPage.SavedSelection | packages/renderer/src/pages/PairingPage.tsx:101-103 | after saving, every selected source that was offered a destination is mapped to it |
| Sync.Dedup | packages/main/src/app/sync/sync.service.ts:43 | the result has the same members as the input, with no repeats, in the order of their first occurrence |
| Sync.DedupDistinct | packages/main/src/app/sync/sync.service.ts:43 | a list without repeats comes out unchanged, order included |
| Sync.ReadKeys | packages/main/src/app/sync/sync.service.ts:32-44 | the read keys are distinct and are exactly the bidirectional tags, TCON/TCMP/TCOM and the six comment frames |
| Sync.ReadKeysCover | packages/main/src/app/sync/sync.service.ts:32-44 | `TXXX:keinelyrics`, which `buildComment` consults, is read exactly when it is configured as bidirectional |
| Sync.BaselineOf | packages/main/src/app/sync/sync.service.ts:63-87 | a pair with no sync time is a first sync, measured against the epoch; otherwise a side changed exactly when it has a modification time strictly later than the sync time, and a missing time never counts as a change |
| Sync.Decide | packages/main/src/app/sync/sync.service.ts:80-99 | equal values give nothing; a tag clashes exactly when it is bidirectional, its values differ, and it is a first sync or both sides changed, and the conflict carries the tag with A's and B's values; a pending change always changes its value; a one-way tag with differing values proposes A's value |
| Sync.DecideTable | packages/main/src/app/sync/sync.service.ts:86-95 | after a first sync a bidirectional tag follows Source A when only A changed, proposes B's own value (`to` is `from`) when only B changed, and proposes nothing when neither changed |
| Sync.OutcomesListed | packages/main/src/app/sync/sync.service.ts:78-100 | a change or conflict is listed exactly when some row of the transformed record decides it |
| Sync.TagOutcome | packages/main/src/app/sync/sync.service.ts:78-100 | for a record without repeated keys, the changes and conflicts about a tag are exactly the decision for that tag |
| Sync.ConflictsAreBidirectional | packages/main/src/app/sync/sync.service.ts:82-98 | only bidirectional tags conflict, and on a first sync no bidirectional tag is a pending change |
| Sync.BackwardChangeRewritesB | packages/main/src/app/sync/sync.service.ts:93-94 | a bidirectional change proposed while A is unchanged carries B's own current value as `to` |
| Sync.ChangeTagsDistinct | packages/main/src/app/sync/sync.service.ts:78-100 | no two pending changes of an entry are about the same tag |
| Sync.ClassifyTags | packages/main/src/app/sync/sync.service.ts:75-100 | the loop collects exactly `Changes` and `Conflicts` of the records |
| Sync.DestByPathLookup | packages/main/src/app/sync/sync.service.ts:50 | the map gives each Source-A path with a row that row's Source-B path, and nothing for other paths |
| Sync.PreviewFile | packages/main/src/app/sync/sync.service.ts:55-109 | the loop body for one path equals `PreviewStep`: skip, an optional entry, or the error thrown |
| Sync.PreviewPair | packages/main/src/app/sync/sync.service.ts:59-109 | the reads, transformation, baseline and classification of one mapped pair equal `PairStep` |
| Sync.PreviewStepEntry | packages/main/src/app/sync/sync.service.ts:55-109 | an entry names a path with a mapping row and that row's non-empty Source-B path, and has pending updates or a non-empty conflict list |
| Sync.CollateMembers | packages/main/src/app/sync/sync.service.ts:53-112 | running the steps in order fails exactly when some step fails, and otherwise keeps exactly the entries produced |
| Sync.PreviewOfMembers | packages/main/src/app/sync/sync.service.ts:47-113 | the preview fails exactly when some path's step throws; otherwise it holds exactly the entries the paths' steps produce |
| Sync.PreviewEntries | packages/main/src/app/sync/sync.service.ts:47-113 | every entry comes from a listed in-library path that has a mapping, and has something pending or conflicting |
| Sync.PreviewSync | packages/main/src/app/sync/sync.service.ts:47-113 | the loop over the in-library paths equals `PreviewOf` |
| Sync.WriteSetLookup | packages/main/src/app/sync/sync.service.ts:131-134 | `toWrite` holds exactly the pending tags, each with its own `to` |
| Sync.CollectWrites | packages/main/src/app/sync/sync.service.ts:131-134 | the `forEach` builds `WriteSet` of the pending updates |
| Sync.AppliedCountsWrites | packages/main/src/app/sync/sync.service.ts:124-138 | `applied` equals the number of `writeTags` calls made |
| Sync.ReportedMembers | packages/main/src/app/sync/sync.service.ts:125-127 | every conflict of every entry is reported once with its source, and nothing else is |
| Sync.WithSourceOf | packages/main/src/app/sync/sync.service.ts:126 | the pushed conflicts are the entry's conflicts tagged with its source, in order |
| Sync.StampAllLookup | packages/main/src/app/sync/sync.service.ts:142-151 | exactly the rows of clean entries get `lastSyncTimestamp = now`; no row is added or removed |
| Sync.StampClean | packages/main/src/app/sync/sync.service.ts:142-151 | the stamps are applied one after the other, as `StampAll` |
| Sync.CleanEntriesHaveRows | packages/main/src/app/sync/sync.service.ts:142-151 | every stamp of a run finds its mapping row |
| Sync.ApplyPreview | packages/main/src/app/sync/sync.service.ts:120-154 | the report is (clean entries, all conflicts with sources); the clean entries' writes go to their Source-B paths in order; their mappings are stamped |
| Sync.RunSync | packages/main/src/app/sync/sync.service.ts:116-155 | a failing preview fails the run with nothing written or stamped; otherwise `ApplyPreview` over the preview |
| Bidirectional.Ledger.Upsert | packages/main/src/app/bidirectional-sync/bidirectional-sync.service.ts:68-85 | the ledger row of (file, tag) gets both values, created if missing; one row per key |
| Bidirectional.SyncFile | packages/main/src/app/bidirectional-sync/bidirectional-sync.service.ts:18-94 | without a mapping it fails and changes nothing; otherwise it returns `ReportOf`, makes the `WritesOf` calls in order, sets the ledger to `LedgerAfter` and stamps the mapping |
| Bidirectional.SyncTags | packages/main/src/app/bidirectional-sync/bidirectional-sync.service.ts:46-86 | the loop decides every tag against the ledger as it was before the loop, and its report, writes and ledger are the specification's |
| Bidirectional.SyncTag | packages/main/src/app/bidirectional-sync/bidirectional-sync.service.ts:47-85 | one tag: the report is noted with its verdict, its write is made, and its ledger row gets the stringified current values |
| Bidirectional.Remembered | packages/main/src/app/bidirectional-sync/bidirectional-sync.service.ts:49-50 | the remembered value is null exactly when the tag has no ledger entry, and otherwise the stored string of the side asked for |
| Bidirectional.VerdictOf | packages/main/src/app/bidirectional-sync/bidirectional-sync.service.ts:54-65 | A-to-B only when A changed and B did not, B-to-A only the other way round; a conflict exactly when both changed to different values; no change only when both sides or neither changed |
| Bidirectional.VerdictSwap | packages/main/src/app/bidirectional-sync/bidirectional-sync.service.ts:54-65 | swapping the two sides swaps the two copy directions and leaves conflicts and no-change alone |
| Bidirectional.Reconcile | packages/main/src/app/bidirectional-sync/bidirectional-sync.service.ts:54-65 | the branch taken pushes the tag onto the list of `VerdictOf` and makes that verdict's write |
| Bidirectional.WriteOne | packages/main/src/app/bidirectional-sync/bidirectional-sync.service.ts:58 | one `writeTags(path, {[tag]: v})` call is made |
| Bidirectional.ReportMembers | packages/main/src/app/bidirectional-sync/bidirectional-sync.service.ts:46-65 | a tag is in `updatedAtoB`, `updatedBtoA` or `conflicts` exactly when its verdict says so, and a conflict carries both current values |
| Bidirectional.ReportListsDisjoint | packages/main/src/app/bidirectional-sync/bidirectional-sync.service.ts:46-65 | no tag lands in two lists, even when it is configured twice |
| Bidirectional.WritesMembers | packages/main/src/app/bidirectional-sync/bidirectional-sync.service.ts:54-62 | every write copies one visited tag's current value as its verdict calls for (A to the B path, or B to the A path), and every such copy is made |
| Bidirectional.WritesCount | packages/main/src/app/bidirectional-sync/bidirectional-sync.service.ts:54-62 | there are as many writes as tags reported copied in either direction |
| Bidirectional.WriteForMembers | packages/main/src/app/bidirectional-sync/bidirectional-sync.service.ts:57-65 | a tag makes one write exactly when it is copied, and a conflict or no change makes none |
| Bidirectional.LedgerAfterLookup | packages/main/src/app/bidirectional-sync/bidirectional-sync.service.ts:68-85 | afterwards every visited tag of the file holds `String(curA)` and `String(curB)`, the values from before the writes; other rows are unchanged |
| Bidirectional.StoredMatchesOnlyStrings | packages/main/src/app/bidirectional-sync/bidirectional-sync.service.ts:78-83 | a stored `String(v)` compares equal to `v` exactly when `v` is a string |
| Bidirectional.ResyncKeepsStrings | packages/main/src/app/bidirectional-sync/bidirectional-sync.service.ts:46-85 | syncing unchanged files again leaves a tag alone when both sides hold strings |
| Bidirectional.ResyncCopiesMissingTag | packages/main/src/app/bidirectional-sync/bidirectional-sync.service.ts:78-83 | a tag missing on A but a string on B is copied A to B again on a later sync whose reads of both files are unchanged, because null was stored as "null" |

## Left out

- I/O, clocks and the file system are not modelled directly:
  - the directory listing (recursive, filtered to `.mp3` at packages/main/src/app/services/file-system.service.ts:46) is the parameter `listFiles`;
  - `getFileTimestamp` is the partial function `mtime`;
  - `new Date()` is the parameter `now`, and one `now` serves a whole call.
- NodeID3 is not modelled. Its read result per path and its update result per path are inputs of `NodeId3`. Reads do not observe earlier writes in the same call, and the on-disk effect of an update is not modelled.
- `readTags`' two error paths (no tag object, or an exception) both give `NoTags`. Log output and the ENOENT/EPERM/EACCES classification of errors are not modelled.
- The logger is omitted everywhere.
- config.service.ts is not part of this model. The bidirectional tag list is a parameter. Its default is `['TKEY','TBP','TXXX:EnergyLevel']` (packages/main/src/app/config/config.service.ts:50).
- `allTagKeys` of the transformer (packages/main/src/app/services/tag-transformer.service.ts:25-39) is not modelled. No modelled operation uses it: the preview reads `getAllReadKeys`.
- Prisma is modelled only as keyed tables:
  - row order is insertion order;
  - surrogate ids are not modelled;
  - the ledger is keyed by (Source-A path, tag) rather than (mapping id, tag), which identifies the same row because `sourceAPath` is unique.
- The `Promise.all` of `runSync`'s stamps is a sequential loop in preview order. The updates touch distinct or identical rows with the same value, so the result does not depend on the order.
- `PairingPage.tsx` outside lines 67-103 is not modelled, apart from the initial selection at line 57: rendering, loading and the IPC calls. Saving is modelled through `PairingService.saveMappings`.
- `ToLower` lowers ASCII letters only. JavaScript's `toLowerCase` is full Unicode. Strings are sequences of characters rather than UTF-16 code units.
- `Basename` and the regular-expression model follow the character classes exactly (`\d` ASCII digits, `.` excluding line terminators). The JavaScript regular-expression engine itself is not modelled beyond the two patterns of `cleanGenre` and the file-name pattern.
- Strict equality between tag values: arrays and objects read in separate calls are never `===`, so the model treats any two of them as different. Identity of one and the same object is not modelled.

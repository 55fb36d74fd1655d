# Verified models of the video store, the warnings report and two build tools

This project models three parts of the repository in Dafny 4.11 and proves properties of them. `dafny verify
dfyconfig.toml` checks all of it.

* **The video store** (`edx-val/edxval`): tables of profiles, videos, encodings, course links with their images, and
  transcripts, next to an image storage and a transcript storage. The class `Store.VideoStore` holds the tables as
  fields and its methods update them with the source's loops and branches. Each method is proved to take the store to
  the value a specification function gives (`Videos`, `Images`, `TranscriptTable`, `TranscriptImport`, `CourseXml`), and
  the properties are proved about those functions: one invariant and image-reference safety over whole runs (`Runs`),
  course copy, transcript import, export followed by import (`RoundTrip`), and the read side (`Queries`). `SubRip` and
  `TranscriptText` model transcript conversion down to the characters of a SubRip file.
* **The pytest warnings report** (`openedx/core/process_warnings.py`, `write_to_html.py`): `WarningReport`,
  `HtmlOutline`, `ReportWriter`.
* **Two build tools**: the debounce decorator (`Debounce`), and the install cache with the uninstall loop (`Prereqs`).

## How the model reads the code

* A query is a filter over a table. A unique database key is either a map key (course and video of a link, id of a
  video) or a check on saving (video and language of a transcript). Nothing in the schema makes an encoding's profile
  unique per video, so that is proved.
* A failed call keeps what it had already written, as without an enclosing database transaction. In particular a link
  that exists already stops a create or update half way (outcome `LinkClash`), and a transcript refused by its unique
  key leaves its file behind.
* Names of stored files and generated ids are parameters: the names a storage hands back. Freshness is assumed only
  where a lemma says so (`Fresh`, `FreshNames`). Whether a storage accepts a file is a parameter too.
* The serializers' text fields trim what they are given (`Videos.Cleaned`); what the HLS endpoint stores is not trimmed.
* JSON decoding and encoding are the two functions of a `Codec`; results hold for every codec, and those that need
  decoding to undo encoding require `Faithful`. The SubRip reader and writer follow the pysrt library in its strict
  mode.
* Hashes are taken as injective: duplicate detection compares contents, the install cache compares the hashed stream.
* The code wins over its comments. The comment at `edx-val/edxval/api.py:1273` says that an existing language is not
  overwritten, but the guard at lines 1167-1169 is commented out; `LastFileWins` states what happens.

## Results that differ from the expected

* sjson to SubRip to sjson is not the identity on all non-blank, newline-free texts: SubRip lines lose trailing white
  space, other line-break characters split a text, and times below zero are written as zero. `SjsonRoundTrip` gives the
  exact condition. A SubRip text can hold a time below zero too; `SrtNormalises` says when the times are kept, and
  `EarlyTimeIsLost` shows a text where they are not.
* Importing the same transcripts twice is not always idempotent: an empty provider attribute keeps the old provider, so
  the first file's provider can count only the second time. `ImportTwice` gives the exact condition and
  `EmptyProviderNotIdempotent` an archive.
* Export followed by import rebuilds a video only if its encodings meet the serializer's rules, which the HLS endpoint
  does not enforce; `ExportImport` states the exact condition. Urls come back trimmed (`UrlsKept`). A transcript may be
  lost or come back with another label: `SrtComesBack` and `SjsonComesBack` say exactly when, and the lemmas after them
  give an input of each kind. A transcript without its content stops the export (`ExportSucceeds`).
* Deleting a transcript takes the content from every other transcript that names the same file; `DeleteLookup` says
  exactly when, and `PostedTwiceDeletedOnce` how the POST view brings that about.
* A course copy or a name-only update can leave an image without any reference; `CopyNoLeak` and `SetImageNoLeak` say
  exactly when.
* After a failed installation, restoring the old files makes the next call skip (`FailureThenRevertSkips`), and text
  moved between adjacent files is not noticed (`MovedTextIsSkipped`); `EditNoticed` says when an edit of files of
  unchanged length is.
* Debouncing is not safe in every run: when a callback ends it clears the handle of a timer that a call started
  meanwhile, and the next call orphans that timer. `DebounceSafety` shows that this is the only way to two live timers,
  and `CallDuringCallback` gives a run.

## Model

| member | source | states |
|---|---|---|
| `SubRip.TimeRoundTrip` | edx-val/edxval/transcript_utils.py:64-69 | a time split into hours, minutes, seconds and milliseconds and written as text reads back as the same number |
| `SubRip.TimeTextShape` | edx-val/edxval/transcript_utils.py:64-69 | a time below a hundred hours is written digit by digit as hh:mm:ss,mmm |
| `TranscriptText.GenerateSjsonFromSrt` | edx-val/edxval/transcript_utils.py:21-45 | the loop yields start, end and newline-free text of every cue, in order |
| `TranscriptText.GenerateSrtFromSjson` | edx-val/edxval/transcript_utils.py:47-73 | the loop writes one numbered item and an empty line per subtitle, and nothing for lists of unequal lengths |
| `TranscriptText.TwoItems` | edx-val/edxval/transcript_utils.py:62-73 | two subtitles are written as number, time line, text and empty line, numbered from 0 |
| `TranscriptText.ReadWritten` | edx-val/edxval/transcript_utils.py:58-73 | any list of cues with times from zero and texts of one or several lines, written as SubRip text, is read back exactly |
| `TranscriptText.CuesRoundTrip` | edx-val/edxval/transcript_utils.py:58-73 | cues read back exactly if and only if no time is below zero and every text is made of non-empty lines without white space at their ends, separated by newlines |
| `TranscriptText.ConvertWritten` | edx-val/edxval/transcript_utils.py:21-45 | converted to sjson, every such cue keeps its times and its whole text, with a space for each newline |
| `TranscriptText.TwoLines` | edx-val/edxval/transcript_utils.py:38 | a cue of two text lines is carried with both, and becomes both with a space in between |
| `TranscriptText.ReadLined` | edx-val/edxval/transcript_utils.py:109-117 | whatever text the strict reader accepts, the texts it returns are texts that SubRip carries unchanged |
| `TranscriptText.SjsonRoundTrip` | edx-val/edxval/transcript_utils.py:21-73 | sjson to SubRip and back is the identity if and only if the lists have equal lengths, times are not negative, and texts have no line break and no trailing white space |
| `TranscriptText.ConvertRoundTrip` | edx-val/edxval/transcript_utils.py:75-122 | the same through `convert`, on encoded documents |
| `TranscriptText.SrtNormalises` | edx-val/edxval/transcript_utils.py:21-73 | any readable SubRip text keeps its cues and their order through sjson and back, with texts flattened; the times are kept if and only if none is below zero, and a second pass changes nothing |
| `TranscriptText.EarlyTimeIsLost` | edx-val/edxval/transcript_utils.py:37-69 | a readable text whose start time carries a minus sign: it is read as below zero and comes back as zero |
| `Videos.PutKeepsDistinct` | edx-val/edxval/views.py:376-379 | the encode replacement keeps profiles distinct per video |
| `Videos.ReplaceKeepsDistinct` | edx-val/edxval/serializers.py:215-220 | replacing a video's encodings by validated ones keeps profiles distinct per video |
| `Videos.ReplacedEncodings` | edx-val/edxval/serializers.py:215-220 | afterwards the video has exactly the new encodings and every other video its old ones |
| `Videos.CreateLeaves` | edx-val/edxval/serializers.py:181-204 | what a create leaves, links saved or not: the row with trimmed text fields, last in primary key order, exactly the given encodings, links to the given courses only; other videos, links and tables as they were; a refused one changes nothing |
| `Videos.UpdateLeaves` | edx-val/edxval/serializers.py:206-232 | the same for an update, which keeps the error description and the primary key order |
| `Videos.SaveSucceeds` | edx-val/edxval/serializers.py:155-232 | both succeed exactly for accepted data of a new, respectively a known id whose courses are listed once and not linked yet |
| `Videos.PutEncodeLeaves` | edx-val/edxval/views.py:370-381 | the given encoding replaces the video's encoding of that profile; its others and other videos' stay; it fails exactly for an unknown video or profile |
| `Videos.StatusLeaves` | edx-val/edxval/views.py:189-224 | a status update keeps everything else; the status view also sets the error description and refuses exactly unlisted statuses and unknown videos |
| `Videos.SavedLinks` | edx-val/edxval/serializers.py:195-202 | saving course links adds visible links with the given images for that video only and changes no existing link, even when it stops half way |
| `Videos.SaveLinksSucceeds` | edx-val/edxval/serializers.py:198-200 | all links are saved exactly when no course is listed twice and none is linked already |
| `Images.UploadLeaves` | edx-val/edxval/models.py:328-347 | an upload stores the file, names it in the row, keeps generated names and flag, and removes the old file exactly when no other row names it; one that fails empties the row's name exactly then; no other row changes |
| `Images.SetImageLeaves` | edx-val/edxval/models.py:348-358 | which generated list and which name a name-only update leaves, and when it is refused |
| `Images.SoftDeleteLeaves` | edx-val/edxval/api.py:736-746 | the link is hidden, keeps its image, and no other link changes |
| `Images.UploadKeepsRefSafe` | edx-val/edxval/models.py:328-347 | an upload, also one that fails after the old file was deleted, leaves no row with a missing image |
| `Images.UploadKeepsNoLeak` | edx-val/edxval/models.py:328-347 | an upload keeps the storage equal to the set of names that rows refer to |
| `Images.SetImageRefSafe` | edx-val/edxval/models.py:348-358 | a name-only update is safe exactly when the name it writes is empty or stored |
| `Images.SetImageNoLeak` | edx-val/edxval/models.py:348-358 | a name-only update leaks nothing exactly when it changes no name, or the new name is stored and the old one is not this row's alone |
| `Images.CopyUnites` | edx-val/edxval/api.py:867-878 | the destination's videos become the union of both courses; no other course changes and no row of a video the source does not have |
| `Images.CopyRow` | edx-val/edxval/api.py:874-883 | an existing destination row keeps its hidden flag and generated names, a new one is visible, a non-empty source image name is shared, an empty one or none changes nothing |
| `Images.CopyIdempotent` | edx-val/edxval/api.py:859-883 | copying twice is copying once |
| `Images.CopyKeepsRefSafe` | edx-val/edxval/api.py:879-883 | a copy never leaves a row with a missing image |
| `Images.CopyNoLeak` | edx-val/edxval/api.py:874-883 | a copy leaks no image exactly when every image has a holder that the copy does not rewrite |
| `Images.CopyIntoBareCourse` | edx-val/edxval/api.py:874-883 | in particular when the copied videos have no named image in the destination yet |
| `TranscriptTable.UpsertKeepsOk` | edx-val/edxval/models.py:513-550 | create-or-update keeps (video, language) unique, also when metadata renames the language |
| `TranscriptTable.ClashExactly` | edx-val/edxval/models.py:433-434 | it is refused by the unique key exactly when it renames the language to one the video already has |
| `TranscriptTable.UpsertFrame` | edx-val/edxval/models.py:527-550 | a refused or failed call leaves all rows unchanged, a successful one changes the addressed row only and stores the data under its file name |
| `TranscriptTable.PostOnlyAdds` | edx-val/edxval/views.py:141-173 | the POST view never alters an existing row or stored content; it appends the given row exactly for supported format and provider and a known video without that language |
| `TranscriptTable.DeleteKeepsOk` | edx-val/edxval/api.py:406-411 | deletion keeps the keys unique and afterwards no row has the key |
| `TranscriptTable.DeleteLookup` | edx-val/edxval/api.py:406-411 | deletion leaves what is read for every other video and language as it was if and only if it does not delete stored content that another row names |
| `TranscriptTable.PostedTwiceDeletedOnce` | edx-val/edxval/views.py:161-173 | the POST view lets two languages name one stored file, and deleting one leaves the other without content |
| `TranscriptTable.UpsertLookup` | edx-val/edxval/api.py:360-395 | with data under a fresh name or without data, renaming the language or not: when the call is stored, what is read for the new key, that a renamed key is gone, and that nothing else changes; when it is refused nothing changes |
| `TranscriptTable.UpsertRefusals` | edx-val/edxval/api.py:374-395 | exactly when a create-or-update is refused or fails, and that it leaves nothing behind but content stored before the unique key refused the row |
| `TranscriptTable.CreateLookup` | edx-val/edxval/api.py:338-357 | creating a transcript succeeds exactly for valid data and a language without one; then that language shows it, and nothing else changes |
| `TranscriptImport.ImportStepView` | edx-val/edxval/api.py:1150-1227 | one file raises exactly when it is read and the old content is missing, or it would replace the content under an unsupported provider; otherwise it changes its own language only, as stated |
| `TranscriptImport.ImportView` | edx-val/edxval/api.py:1150-1283 | an import raises nothing exactly when every language's files are clear, and then for every language the result is its importable files folded into what was there; other videos do not change |
| `TranscriptImport.LastFileWins` | edx-val/edxval/api.py:1167-1169 | the last importable file of a language decides the content |
| `TranscriptImport.ExternalDecides` | edx-val/edxval/api.py:1249-1283 | after a successful import the last usable external file of a language decides its content, whatever the transcript elements say; unless the text was there before, with provider Custom |
| `TranscriptImport.ElementDecides` | edx-val/edxval/api.py:1249-1272 | without one, the last transcript element with a usable file named after video, language and format does, with its provider |
| `TranscriptImport.NothingDecides` | edx-val/edxval/api.py:1249-1283 | without any usable file the language keeps what it had |
| `TranscriptImport.ImportTwice` | edx-val/edxval/api.py:1230-1283 | after a successful import, the same archive again, under other stored names: exactly when that succeeds, and that a language changes if and only if its first file loses a provider (`ProviderLost`) |
| `TranscriptImport.ImportOrderIrrelevant` | edx-val/edxval/api.py:1274-1283 | the order of the external languages matters neither for success nor for what a successful import leaves |
| `TranscriptImport.EmptyProviderNotIdempotent` | edx-val/edxval/api.py:374-378 | a concrete archive with an empty provider, which is filtered out and keeps the old one, where the second import changes the provider |
| `CourseXml.ImportExisting` | edx-val/edxval/api.py:1065-1096 | importing a known id changes no video and no encoding, links nothing for an external video, and keeps hidden flags |
| `CourseXml.ImportLinksKnown` | edx-val/edxval/api.py:1077-1085 | importing a known video for a course links it, with the element's trimmed image name or the image it had; refused exactly for an invalid course id without link |
| `CourseXml.ImportCreates` | edx-val/edxval/api.py:1103-1142 | importing an unknown id is refused without effect, or creates the video with the element's client id, duration, encodings of known profiles in order, and its link and image, or as external |
| `CourseXml.ImportWithoutId` | edx-val/edxval/api.py:1143-1147 | importing without an id creates an external video under the generated id, without encodings and links |
| `RoundTrip.CreateFromExport` | edx-val/edxval/api.py:1103-1142 | creating from an exported element succeeds exactly when the known encodings, urls trimmed, pass the serializer and the course id is valid, and rebuilds row, encodings and link, or an external video without link |
| `RoundTrip.UrlsKept` | edx-val/edxval/serializers.py:17-48 | the rebuilt encodings are the exported ones if and only if every url is trimmed |
| `RoundTrip.BlankUrlIsRefused` | edx-val/edxval/views.py:376-379 | once the HLS endpoint has stored a blank url, the exported video cannot be created where the profile is known |
| `RoundTrip.SpacedUrlIsTrimmed` | edx-val/edxval/views.py:376-379 | a url the HLS endpoint stored with a leading space does not come back as it was |
| `RoundTrip.ExportSucceeds` | edx-val/edxval/api.py:886-1030 | an export succeeds if and only if the video exists and each of its transcripts has stored content that is srt, or sjson that decodes to subtitles |
| `RoundTrip.ExportedVideo` | edx-val/edxval/api.py:905-935 | the exported element has the video's client id, duration, encodings, and the image name of the course's link, or an empty one |
| `RoundTrip.ExportedElements` | edx-val/edxval/api.py:1002-1028 | one transcript element per transcript, in the order of the languages, with language, format srt and provider |
| `RoundTrip.ExportedFiles` | edx-val/edxval/api.py:938-967 | one file per transcript, named after video and language, holding its content converted to SubRip, and no other file |
| `RoundTrip.ExportRowsFiles` | edx-val/edxval/api.py:1002-1028 | each exported transcript's text is in its own file when the export ends |
| `RoundTrip.ExportImport` | edx-val/edxval/api.py:886-1147 | for an exportable video and a store without its id, export then import succeeds under an exact condition, changes nothing otherwise, and rebuilds video, encodings, a visible link with the image that the exporting link names, and every transcript |
| `RoundTrip.SrtComesBack` | edx-val/edxval/api.py:950-959 | an srt transcript comes back unchanged if and only if its text is not JSON, is readable and has a cue; exactly when it is lost, and exactly when it comes back labelled sjson |
| `RoundTrip.SjsonComesBack` | edx-val/edxval/api.py:950-959 | an sjson transcript's subtitles survive if and only if SubRip can carry them; exactly when it comes back labelled srt, and exactly when it is lost |
| `RoundTrip.OneLineIsLost` | edx-val/edxval/api.py:1202-1213 | an srt transcript of one line of text, not JSON, does not come back |
| `RoundTrip.EmptyIsRelabelled` | edx-val/edxval/utils.py:206-222 | an empty srt transcript comes back labelled sjson |
| `RoundTrip.JsonIsRelabelled` | edx-val/edxval/utils.py:206-222 | an srt transcript whose text is JSON comes back labelled sjson |
| `RoundTrip.TrailingSpaceIsLost` | edx-val/edxval/transcript_utils.py:47-73 | a subtitle that ends in a space does not survive |
| `RoundTrip.NoSubtitlesIsRelabelled` | edx-val/edxval/utils.py:206-222 | an sjson transcript without subtitles comes back as an empty text labelled sjson |
| `RoundTrip.EmptySjsonStopsExport` | edx-val/edxval/api.py:950-959 | a video with such an empty text cannot be exported again |
| `Runs.RunKeepsInv` | edx-val/edxval/serializers.py:155-232 | every run keeps ids unique, profiles distinct per video, links and transcripts on existing videos, and (video, language) unique |
| `Runs.RunKeepsRefSafe` | edx-val/edxval/models.py:328-358 | over every run whose name-only updates name stored files, no row refers to a missing image |
| `Runs.RunKeepsNoLeak` | edx-val/edxval/models.py:328-358 | over every run without an operation that drops a last reference, storage is exactly the set of names in use |
| `Runs.RunsFromEmpty` | edx-val/edxval/models.py:300-358 | the three run results from the empty store |
| `Queries.CollectUrls` | edx-val/edxval/api.py:618-628 | the loop returns exactly the requested profiles, each with the url of the one matching encoding or None |
| `Queries.BuildNested` | edx-val/edxval/api.py:840-856 | the setdefault and update loop yields the dictionary's relational meaning for any order of the rows |
| `Queries.NestedUnique` | edx-val/edxval/api.py:830-856 | that meaning determines the dictionary |
| `Queries.NestedContents` | edx-val/edxval/api.py:830-856 | field by field: which videos and profiles are listed, hidden links included, and with which duration, url and size |
| `Queries.WorklistCovered` | edx-val/edxval/views.py:333-350 | offsets 0, b, 2b, ... list every file_complete video without an hls encoding exactly once, in primary key order |
| `Queries.PutUpdatesWorklist` | edx-val/edxval/views.py:372-381 | putting an hls encoding removes exactly that video and keeps the order; another profile changes nothing |
| `Queries.ListingContents` | edx-val/edxval/api.py:728-733 | the course listing shows each video whose link is not hidden once and nothing else |
| `Queries.ListingSorted` | edx-val/edxval/api.py:655-659 | the listing comes by the column, equal ones by ascending id |
| `Queries.ListingDetermined` | edx-val/edxval/api.py:655-659 | the second sort key makes the listing unique, and descending is exactly the reverse |
| `Queries.ListingExists` | edx-val/edxval/api.py:655-659 | such a listing exists for every set of rows and every sort column |
| `Queries.PagesCover` | edx-val/edxval/api.py:661-669 | pages 1 to the last concatenate to the whole listing |
| `Queries.PageContents` | edx-val/edxval/api.py:661-669 | which page numbers exist, and which items a page holds |
| `Store.VideoStore.CreateVideo` | edx-val/edxval/serializers.py:181-204 | the in-place create has the specified effect and keeps the invariant |
| `Store.VideoStore.UpdateVideo` | edx-val/edxval/serializers.py:206-232 | the in-place update has the specified effect and keeps the invariant |
| `Store.VideoStore.PutHlsEncode` | edx-val/edxval/views.py:370-381 | delete and create have the specified effect on the encodings |
| `Store.VideoStore.PatchVideoStatus` | edx-val/edxval/views.py:189-224 | an invalid status or unknown video changes nothing; otherwise status and error description are overwritten |
| `Store.VideoStore.RemoveVideoForCourse` | edx-val/edxval/api.py:736-746 | only the hidden flag of the addressed link changes |
| `Store.VideoStore.UploadVideoImage` | edx-val/edxval/models.py:328-347 | the branches of an upload have the specified effect on rows and storage, failing saves included |
| `Store.VideoStore.SetVideoImage` | edx-val/edxval/models.py:348-358 | the branches of a name-only update have the specified effect, a refused list of names included |
| `Store.VideoStore.PostVideoImages` | edx-val/edxval/views.py:253-277 | too long a list is refused unchanged, any other reaches the row |
| `Store.VideoStore.CopyCourseVideos` | edx-val/edxval/api.py:859-883 | the copy loop, in any order of the source rows, yields the specified links |
| `Store.VideoStore.UpsertTranscript` | edx-val/edxval/models.py:513-550 | the branches of create-or-update have the specified effect on rows and storage |
| `Store.VideoStore.CreateTranscriptObjects` | edx-val/edxval/api.py:1230-1283 | the two loops over elements and external files import the specified sequence of files and stop at an exception |
| `Store.VideoStore.ImportFromXml` | edx-val/edxval/api.py:1033-1147 | the import's branches have the specified effect on the whole store |
| `Store.VideoStore.ExportToXml` | edx-val/edxval/api.py:886-1030 | the export's loops build the specified element and files, or fail as specified |
| `Store.VideoStore.GetUrlsForProfiles` | edx-val/edxval/api.py:605-628 | in a valid store the urls are those of the video's encodings, all None for an unknown video |
| `Store.VideoStore.GetVideoInfoForCourseAndProfiles` | edx-val/edxval/api.py:775-856 | in a valid store the dictionary has its relational meaning |
| `WarningReport.CompressSimilarWarnings` | openedx/core/process_warnings.py:119-128 | counter and slot loop give each distinct row its multiplicity |
| `WarningReport.CompressConserves` | openedx/core/process_warnings.py:119-128 | the counts sum to the number of warnings |
| `WarningReport.CompressDistinct` | openedx/core/process_warnings.py:65-76 | rows converted with count 1 are distinct after compression, one per distinct warning with its number of occurrences |
| `WarningReport.GroupAndSortBySumOf` | openedx/core/process_warnings.py:158-175 | sort, group, sum and sort again give the specified groups |
| `WarningReport.GroupedSpec` | openedx/core/process_warnings.py:158-175 | groups are exactly the data's subsequences per key, keys distinct and all covered, counts descending with ties by key, and summing to the data's count |
| `WarningReport.GroupedHolds` | openedx/core/process_warnings.py:158-175 | the groups together hold every row as often as the data |
| `HtmlOutline.OutlineNests` | openedx/core/write_to_html.py:88-95 | an outline closes every section it opens and stays within its height |
| `HtmlOutline.OutlineIds` | openedx/core/write_to_html.py:83-92 | section ids are consecutive without repeats |
| `ReportWriter.WriteHtmlReport` | openedx/core/process_warnings.py:178-246 | the nested loops write exactly the outline of the report |
| `ReportWriter.ReportShows` | openedx/core/process_warnings.py:188-246 | read back from what is written, every row stands once under its category, its location and its message, in a section named after its file, with its line number and count, and nothing else is shown |
| `ReportWriter.ReportInOrder` | openedx/core/process_warnings.py:175-214 | at every level the sections come by descending counts, ties by key, without a repeated key |
| `ReportWriter.ReportWellNested` | openedx/core/process_warnings.py:188-246 | for any data the sections are balanced, at most four deep, with ids 0, 1, 2, ... in order |
| `ReportWriter.ReportConserves` | openedx/core/process_warnings.py:189-246 | every label's count is the sum written beneath it, and the report accounts for every raw warning once |
| `Debounce.DebounceSafety` | pavelib/assets.py:281-301 | never two timers are live exactly in the runs where no call finds a live timer its handle does not name; in those, executions are at least `seconds` apart, each after `seconds` without calls and with the last call's arguments |
| `Debounce.DebounceDelivers` | pavelib/assets.py:281-301 | in the same runs an unserved call has a timer due `seconds` after the last call; once calls stop and due timers have fired, the last call has been executed |
| `Debounce.CallDuringCallback` | pavelib/assets.py:292-298 | a concrete run with an orphaned timer: two executions follow with no time between them |
| `Debounce.RaisingNeverOrphans` | pavelib/assets.py:283-289 | a callback that raises leaves the handle alone, so runs in which every callback raises never have two live timers |
| `Debounce.Debouncer.Wrapper` | pavelib/assets.py:291-298 | cancel and restart have the specified effect on handle and timers |
| `Prereqs.ComputeFingerprint` | pavelib/prereqs.py:64-87 | the loops feed the hash the concatenation of file contents and sorted subdirectory times |
| `Prereqs.ListingOrderIrrelevant` | pavelib/prereqs.py:76-80 | the order in which a directory is listed does not reach the fingerprint |
| `Prereqs.Contributions` | pavelib/prereqs.py:73-85 | a file contributes its content, a path that does not exist nothing |
| `Prereqs.TwoSubdirs` | pavelib/prereqs.py:75-80 | a directory contributes the times of its subdirectories by ascending names |
| `Prereqs.PrereqInstaller.Run` | pavelib/prereqs.py:90-123 | a call skips, installs and records the fingerprint found afterwards, or fails and records nothing, as specified |
| `Prereqs.CacheAgrees` | pavelib/prereqs.py:90-123 | over every run of edits, installs and failures, a call skips exactly when it finds the fingerprint the last successful install left |
| `Prereqs.CallTwice` | pavelib/prereqs.py:106-123 | after a normal return the next call skips; a failure leaves the stored hash unchanged; every call that does not skip has run the install function |
| `Prereqs.FailureThenRevertSkips` | pavelib/prereqs.py:109-121 | after a failed install, restoring the old files makes the next call skip |
| `Prereqs.MovedTextIsSkipped` | pavelib/prereqs.py:82-85 | text moved from the end of one file to the start of the next is not noticed |
| `Prereqs.EditNoticed` | pavelib/prereqs.py:64-111 | an edit that keeps the length of what each path contributes is noticed exactly when it changes a contribution |
| `Prereqs.Uninstaller.UninstallPackages` | pavelib/prereqs.py:230-258 | the version file is written only when the last freeze showed no listed package, and without a matching version file that happens exactly when none has more than two copies |

## Left out

- Django, REST framework, lxml, file system and storage internals, permissions, authentication, HTTP responses and urls
  of stored files: plumbing around the modelled steps.
- Enclosing database transactions: a rollback would restore rows but not deleted files, so reference safety is stated
  for calls whose row changes stay.
- The REST endpoint that deletes a video with its rows: the database cascades to the rows, and no code of the repository
  runs. The HLS list for given courses is the work list under another filter.
- The text form of XML: escaping, and the characters that XML itself refuses.
- Transcript preferences, credentials and turnaround plans: rows without rules between them.
- `WarningReport.ConvertAll`: takes the dictionaries' columns as given and models the count slot; classifying file names
  by location and marking deprecations fill two slots that grouping and counting treat like any other text.
- `SubRip.ReadNumber`: reads an optional sign, decimal digits and underscores between them; digits of other scripts in a
  time field, which Python's number parser accepts, are not modelled.
- `CourseXml.ImportXml`: XML attributes for numbers are numbers; their text form is taken to round-trip, as is UTF-8.
- `Queries.ListingDetermined`: the sort column is any total preorder of the videos; the database's collation is not
  fixed.
- `Prereqs.Uninstaller.UninstallPackages`: matching a package name against the text of a freeze is "at least one copy is
  installed", and each uninstall removes one copy.
- Node installation, quality, server and Sass tasks: shell commands.

# PDF-2-Daisy, modelled in Dafny

PDF-2-Daisy turns a PDF book into a DAISY 3 talking book. It cuts the PDF text into one
section per table-of-contents entry and writes the sections as a DTBook document (ANSI/NISO
Z39.86-2005). It then splits that document into one file per chapter. For speech synthesis
it writes one TSV manifest per chapter and merges the synthesised recordings of each chapter
into one track, with a synchronisation map of "M:SS.FF" time stamps. Anemone packs
everything into a zip archive. An HTTP service runs each conversion as a background job and
reports its progress through a shared status record.

This project models that pipeline and proves properties of the model. Each module follows
one part of the source.

- `Text` is a small string library: Python's `strip`, `split`, `join`, `replace`, `lower`,
  integer printing and parsing. `Wrappers` holds `Option` and `Result`.
- `Sentences` is `split_sentences_with_newline`, the chain of rewrites that breaks a text
  into one sentence per line.
- `Chunker` is `chunk_sentences`. It is a loop proved against a greedy packing function,
  which is itself described by groups of consecutive lines.
- `Segmenter` is the cutting logic of `process_pdf`. It works over the page texts and the
  table of contents, given as sequences.
- `AnemoneTime` is `ms_to_anemone_time`, on integer milliseconds.
- `Dtbook` is `create_dtbook_xml`: XML escaping, sentence ids and the document text.
- `DtbookSplit` is `split_dtbook_by_chapter`, over an element-tree datatype.
- `TextProcessing` is the `TextProcessor` class: the PDF name check, the naming of the
  combined DTBook, and the two TSV manifests. The manifests are appended to files, modelled
  as a map from path to lines.
- `Audio` is the `AudioProcessor` class.
  - The chapter merge works over the durations of the recordings: markers, 800 ms pauses,
    track length.
  - The chapter loop of `create_audio_for_book` covers progress updates, sort keys and the
    collection of results in completion order.
- `JobStatus` is the status record, a class with `status`, `progress`, `total` and
  `result_path` fields. A ghost log keeps every assignment, and `Replay` says what a log
  leaves in the record.
- `DaisyMaking` is `DaisyMaker.create_daisy_for_book`. Its contract is a function of the
  inputs, `MakerRun`, which gives:
  - the record updates, in order;
  - the disk left behind;
  - the outcome: the archive path, or the error the `except` clause turns into
    `"error: ..."`.
- `Server` is the job table and the endpoints `/process`, `/status` and `/download`, plus the
  background run `run_daisy_creation`.

The external engines are inputs of the model. These are PyMuPDF (page texts and table of
contents), lxml (the tree read back from the written DTBook), the TTS engine and pydub
(recording names and durations), glob (directory listings), and Anemone (an outcome for its
argument list). The order in which merges complete is a permutation parameter.

Behaviours of the source that the model reproduces and the proofs make explicit:

- `create_daisy_for_book` rebuilds its `TextProcessor` with the defaults, so the chunk
  size and sentence mode the server computes from the request are never used. The TSV
  manifests are always chunked at 200 characters (`DaisyMaker.CreateDaisyForBook`,
  `RunDaisyCreation`).
- The default `book_date` "2023-01-01" does not match `%m/%d/%Y`. A call that keeps the
  default ends in an error status before any other step (`DefaultDateFails`).
- After a successful run the record shows progress 100 against a total equal to the number
  of chapters (`MakerRecord`).
- The maker catches its own exceptions. A failed conversion therefore reaches the server
  as a missing archive. The server then overwrites the maker's error text with
  "error: Final DAISY zip file not found." (`RunRecord`).
- In sentence mode, a title that holds no space is not sentence-split, and its content is
  empty when the title does not occur in the page text (`SingleWordTitleAbsent`).
- In chunk mode, a line of blanks that starts a chunk yields an empty chunk (`EmptyChunk`).
- A chapter whose first manifest gets no row fails on closing a file that was never
  opened (`TsvOk`).

## Model

| member | source | states |
|---|---|---|
| Sentences.SplitSentencesFormat | src/doc_process/process_doc.py:22-30 | the result is stripped, has no two consecutive line breaks and no curly double quotes, and every `!` and `?` in it ends the text or is followed by a line break |
| Sentences.ListMarkerNotBroken | src/doc_process/process_doc.py:15-25 | a number and its dot at a word boundary, followed by blanks and a word, appear unbroken in the output |
| Sentences.ChapterMarkerNotBroken | src/doc_process/process_doc.py:15-25 | "Chương N." followed by blanks and a word appears unbroken in the output |
| Sentences.SentenceEndBroken | src/doc_process/process_doc.py:22-30 | a `.`, `!` or `?` after a word character that is not a digit is followed in the output by exactly one line break, then the next words |
| Sentences.EllipsisEndsSentence | src/doc_process/process_doc.py:22-30 | "..." after a word character that is not a digit becomes a single "." followed by exactly one line break, then the next words |
| Sentences.BreakPunctBreaksAfter | src/doc_process/process_doc.py:22 | after the punctuation pass every `!` and `?` is followed by a line break |
| Sentences.CollapseNoBlankLine | src/doc_process/process_doc.py:30 | collapsing runs of line breaks leaves no two in a row |
| Sentences.ProtectMarker | src/doc_process/process_doc.py:15-19 | the protect pass replaces the dot of a number marker by the placeholder and keeps the digits and the text after them |
| Sentences.BreakRestoreMarker | src/doc_process/process_doc.py:22-25 | after the punctuation pass and the restore, a protected marker reads "digits." and its text again, with no break |
| Sentences.EllipsisPassOnEllipsis | src/doc_process/process_doc.py:27 | the ellipsis pass turns an ellipsis already broken by the punctuation pass into ".", two line breaks and the text after it |
| Chunker.ChunkSentences | src/doc_process/process_doc.py:32-51 | the loop returns the greedy packing `Chunks` of the lines |
| Chunker.ChunkGroups | src/doc_process/process_doc.py:42-50 | the chunks come from consecutive non-empty groups of lines that concatenate to the input lines in order, and every group of two or more lines packs within max_len |
| Chunker.PackGroups | src/doc_process/process_doc.py:42-50 | from any loop state the rest of the run emits the chunks of such a grouping of the current group and the remaining lines |
| Chunker.ChunkBound | src/doc_process/process_doc.py:43-50 | every chunk is stripped, and a chunk longer than max_len is a single stripped input line |
| Chunker.EmitAllSource | src/doc_process/process_doc.py:46-50 | every chunk is the stripped packing of one group |
| Chunker.PackedIsJoin | src/doc_process/process_doc.py:44 | the lines of a group that starts with a non-empty line are joined with single spaces |
| Chunker.EmptyChunk | src/doc_process/process_doc.py:43-50 | " \nabc" with max_len 1 gives the chunks "" and "abc" |
| Segmenter.ProcessPdf | src/doc_process/process_doc.py:53-105 | the loop returns the sections `Sections` describes, or its error |
| Segmenter.CutChapter | src/doc_process/process_doc.py:72-78 | computes the content of a section followed by another one |
| Segmenter.CutFinal | src/doc_process/process_doc.py:92-96 | computes the content of the last section |
| Segmenter.SectionsOk | src/doc_process/process_doc.py:63-102 | an empty table of contents fails at its first entry, a one-entry one fails on unbound loop variables, and otherwise the run succeeds exactly when no title is empty and every start page is one `doc.pages` accepts |
| Segmenter.SectionsShape | src/doc_process/process_doc.py:81-102 | one section per entry, in order, with the entry's title and page and a stripped content; each section but the last is cut from its own pages, and the last is cut from the previous content and the pages from its start to the end |
| Segmenter.LoopOk | src/doc_process/process_doc.py:66-89 | the loop fails exactly when an entry from the current one on has an empty title or a start page past the end of the document |
| Segmenter.FinalSectionOk | src/doc_process/process_doc.py:92-96 | the last section can be cut exactly when its title is not empty and its start page is accepted |
| Segmenter.BodyContentOk | src/doc_process/process_doc.py:69-78 | a section followed by another can be cut exactly when its title is not empty, its start page is accepted and the next title is not empty |
| Segmenter.LoopLast | src/doc_process/process_doc.py:91-102 | the loop ends with the last section as cut from the previous content and the final pages |
| Segmenter.PageNumbers | src/doc_process/process_doc.py:69 | `doc.pages` refuses a start past the last page of a non-empty document, and otherwise visits only pages that exist |
| Segmenter.PagesText | src/doc_process/process_doc.py:69-70 | the text of a page range fails exactly when its start is past the last page of a non-empty document |
| Segmenter.PagesForward | src/doc_process/process_doc.py:69-70 | a range whose start is not after its stop yields the pages from start up to stop, cut at the end of the document |
| Segmenter.PagesBackward | src/doc_process/process_doc.py:69-70 | a start after the stop walks backwards, from the start page down to the page after the stop |
| Segmenter.PagesFromEnd | src/doc_process/process_doc.py:92-93 | a negative start counts from the end of the document |
| Segmenter.ChapterContentOk | src/doc_process/process_doc.py:73-78 | cutting a section fails exactly when its own or the next title is empty |
| Segmenter.SingleWordTitleAbsent | src/doc_process/process_doc.py:73-75 | a one-word title that does not occur before the next title gives an empty content |
| Segmenter.SingleWordNoLineBreaks | src/doc_process/process_doc.py:72-75 | the content under a one-word title is not sentence-split: it holds no line break |
| Segmenter.SplitSectionsAreSentences | src/doc_process/process_doc.py:76-78 | the content under a title with several words is sentence-split: stripped, no blank line, no curly quotes |
| Segmenter.FinalRepeatsPrevious | src/doc_process/process_doc.py:92-96 | when the last title does not occur, the last section also holds the previous section's content, since that is never cleared |
| Segmenter.FinalAfterLastTitle | src/doc_process/process_doc.py:92-96 | otherwise the last section keeps only the text after the last occurrence of its title |
| AnemoneTime.MsToAnemoneTime | src/utils.py:23-26 | the minutes are ms div 60000, unpadded, followed by ":", two digits, "." and two digits |
| AnemoneTime.Centis | src/utils.py:23-26 | the hundredths of the minute are within half a hundredth of the exact value and at most 6000 |
| AnemoneTime.RoundTrip | src/utils.py:15-26 | reading the stamp back gives the duration rounded half up to 10 ms |
| AnemoneTime.ExactOnHundredths | src/utils.py:23-26 | a multiple of 10 ms is written exactly as minutes, ":", padded seconds, "." and padded hundredths |
| AnemoneTime.Monotone | src/utils.py:15-26 | a later time never gets an earlier stamp |
| AnemoneTime.MinuteEdge | src/utils.py:25-26 | in the last 5 ms of a minute the seconds read "60.00" and the minute is not carried |
| Dtbook.CreateDtbookXml | src/doc_process/process_xml.py:42-96 | the written document is the header, the sections' blocks in input order, and the footer |
| Dtbook.AppendSentences | src/doc_process/process_xml.py:72-82 | the inner loop appends one sentence element per tagged piece |
| Dtbook.EscapeRoundTrip | src/doc_process/process_xml.py:69-82 | escaped text is well escaped and reads back as the original text |
| Dtbook.WellEscapedNoMarkup | src/doc_process/process_xml.py:69-82 | well-escaped text holds no raw `<` or `>` |
| Dtbook.EscapePlain | src/doc_process/process_xml.py:69-82 | text without `&`, `<` and `>` is written unchanged |
| Dtbook.IdsInjective | src/doc_process/process_xml.py:69-82 | a heading id and a sentence id never coincide, and each id names one section and one position |
| Dtbook.BodyIsFragments | src/doc_process/process_xml.py:66-86 | the body is, in order, one fragment per key of `BodyKeys` and the close of the last section; the fragment of a key writes that key's id as its only id |
| Dtbook.SentsFragments | src/doc_process/process_xml.py:72-82 | the sentences of a section are the fragments of its sentence keys |
| Dtbook.BodyKeysOrdered | src/doc_process/process_xml.py:66-86 | the keys of the body, and so the ids it writes, come in strictly increasing document order |
| Dtbook.BodyIdsDistinct | src/doc_process/process_xml.py:66-86 | all ids written in the body are distinct |
| Dtbook.ItemsSound | src/doc_process/process_xml.py:73-76 | the sentence items carry their lines' stripped texts at strictly increasing line indices |
| Dtbook.ItemsTextsHold | src/doc_process/process_xml.py:73-76 | each sentence carries the stripped text of the line its id names |
| Dtbook.ItemsIncrease | src/doc_process/process_xml.py:73-76 | sentence positions are original line indices, strictly increasing |
| Dtbook.ItemsComplete | src/doc_process/process_xml.py:73-76 | every line that is not empty once stripped gets a sentence |
| Dtbook.ChunkModeItems | src/doc_process/process_xml.py:77-82 | in chunk mode each sentence is a non-empty chunk numbered by its position, and every non-empty chunk is tagged |
| DtbookSplit.SplitDtbookByChapter | src/doc_process/process_xml.py:101-177 | fails exactly when the chapters cannot be found, with that error; otherwise one output per chapter, in order, named `chapter_{idx}.dtbook.xml`, holding that chapter's document |
| DtbookSplit.ChaptersErrors | src/doc_process/process_xml.py:127-133 | the error is "no bodymatter" exactly when none is found at any depth, and "no chapters" exactly when the bodymatter has no `level1` child |
| DtbookSplit.ChapterDocShape | src/doc_process/process_xml.py:135-164 | a chapter document is a `dtbook` with the root's attributes; its `book` holds a frontmatter, a new bodymatter with the chapter alone, and a rearmatter |
| DtbookSplit.NestedMatter | src/doc_process/process_xml.py:143-161 | a rearmatter below `book` is not found, so an empty one is written, while the frontmatter is searched at any depth |
| DtbookSplit.ChapterPathsDistinct | src/doc_process/process_xml.py:167 | the chapter files have distinct names |
| DtbookSplit.NsPrefixOfClark | src/doc_process/process_xml.py:117-125 | for a root tag `{ns}local` the prefix is `{ns}` |
| DtbookSplit.FindChild | src/doc_process/process_xml.py:143 | the first direct child with the tag, found exactly when one exists |
| DtbookSplit.FindChildren | src/doc_process/process_xml.py:131 | the direct children with the tag, empty exactly when there is none |
| DtbookSplit.FindDescSeesChildren | src/doc_process/process_xml.py:127 | a search at any depth finds what a search among the children finds |
| TextProcessing.TextProcessor.constructor | src/doc_process/text_processor.py:10-24 | the processor keeps its input file, output directory, mode and chunk size, with no processed sections |
| TextProcessing.TextProcessor.MakeXmlLst | src/doc_process/text_processor.py:43-58 | a name not ending in ".pdf" fails; a failed cut fails; otherwise the sections are kept, the combined DTBook is written and split |
| TextProcessing.PdfNameAnyCase | src/doc_process/text_processor.py:43 | only the last four characters decide, in any letter case |
| TextProcessing.XmlNameOfPdf | src/doc_process/text_processor.py:45-46 | a title "stem.pdf" names the file "stem.xml" |
| TextProcessing.XmlNameWithoutPdf | src/doc_process/text_processor.py:45-46 | a title without ".pdf" names a file without an extension |
| TextProcessing.WriteAndSplit | src/doc_process/text_processor.py:46-55 | the combined DTBook is written to its path and the chapters come from the tree read back |
| TextProcessing.SplitChapters | src/doc_process/text_processor.py:54 | the chapter split, with its error carried over |
| TextProcessing.Append | src/doc_process/text_processor.py:90 | appending adds the lines after what the file holds and changes no other file |
| TextProcessing.DroppedIsDropList | src/doc_process/text_processor.py:78-79 | a line is dropped exactly when its stripped form is empty or one of `. ( ) < > ; ' "` |
| TextProcessing.LineRows | src/doc_process/text_processor.py:76-95 | the inner loop computes the rows of `Rows` |
| TextProcessing.RowsKeepText | src/doc_process/text_processor.py:77-95 | the rows' texts joined by spaces are the kept lines joined by spaces, and there is no row exactly when no line is kept |
| TextProcessing.RowIds | src/doc_process/text_processor.py:77-95 | row ids are original line indices and strictly increase |
| TextProcessing.RowsShortOnlyLast | src/doc_process/text_processor.py:81-95 | only the last row of a chapter can be shorter than 10 characters |
| TextProcessing.ChunkLineRows | src/doc_process/text_processor.py:116-118 | the inner loop computes one row per chunk |
| TextProcessing.ChunkRowsAreChunks | src/doc_process/text_processor.py:114-118 | row j of a chapter is chunk j of its title and content |
| TextProcessing.RowFields | src/doc_process/text_processor.py:91 | a row line is id, prompt text, prompt wav and text, separated by tabs, which split back into those four fields |
| TextProcessing.TsvPathsDistinct | src/doc_process/text_processor.py:90 | every chapter appends to a file of its own |
| TextProcessing.TsvOk | src/doc_process/text_processor.py:69-97 | writing the manifests fails exactly when the first chapter writes no row |
| TextProcessing.TsvLaterOk | src/doc_process/text_processor.py:69-97 | once a chapter has written, the later chapters cannot fail |
| TextProcessing.TsvAppends | src/doc_process/text_processor.py:69-97 | each chapter file ends up holding its old lines and then the chapter's rows |
| TextProcessing.TextProcessor.CreateTsvForTts | src/doc_process/text_processor.py:60-98 | the line manifest of every processed chapter |
| TextProcessing.TextProcessor.CreateTtsForTtsWithChunks | src/doc_process/text_processor.py:100-120 | the chunk manifest of every processed chapter |
| Audio.AudioProcessor.constructor | src/audio_process/audio_processor.py:22-33 | the processor keeps its directories, prompt and model settings |
| Audio.MergeWavInChapter | src/audio_process/audio_processor.py:63-109 | no recording fails; otherwise the sync and track paths of the chapter, the markers, the pieces laid down and the merged length |
| Audio.Markers | src/audio_process/audio_processor.py:78-90 | one marker per recording, the first being the title marker at "0:00" |
| Audio.MarkerAt | src/audio_process/audio_processor.py:86-90 | marker i is `c{k}_c{i-1}` at the start time of recording i |
| Audio.AppendMarker | src/audio_process/audio_processor.py:86-92 | one step of the loop adds the marker of the next recording at the running time |
| Audio.LayoutShape | src/audio_process/audio_processor.py:82-97 | the title recording is followed directly by the first body recording, and a pause follows every body recording but the last |
| Audio.LayoutMs | src/audio_process/audio_processor.py:84-97 | a partial track lasts the recordings so far plus 800 ms per pause |
| Audio.MergedLengthIsTrack | src/audio_process/audio_processor.py:84-107 | the merged length is the length of the pieces laid down |
| Audio.StartsIncrease | src/audio_process/audio_processor.py:84-97 | each body start is the previous start, its duration and a pause, so starts strictly increase |
| Audio.StartsWithin | src/audio_process/audio_processor.py:84-97 | every body start lies between the end of the title and the end of the track |
| Audio.MarkerTimesMonotone | src/audio_process/audio_processor.py:90 | read back, marker times never go down |
| Audio.Keyed | src/audio_process/audio_processor.py:149-152 | the sort keys are found exactly when every name carries a number, and a name without one is the error |
| Audio.SortByKey | src/audio_process/audio_processor.py:149-152 | the result is sorted by key and is a permutation of the input |
| Audio.SortedUnique | src/audio_process/audio_processor.py:149-152 | with distinct keys there is only one sorted permutation |
| Audio.Decoded | src/audio_process/audio_processor.py:82-87 | one duration per recording, or the first recording that cannot be read |
| Audio.Submitted | src/audio_process/audio_processor.py:131-161 | without a failure one job per chapter handled, with one fewer jobs than chapters handled otherwise |
| Audio.SubmittedSticks | src/audio_process/audio_processor.py:131-161 | once the loop has failed, later chapters change nothing |
| Audio.AudioFailedAt | src/audio_process/audio_processor.py:131-161 | when chapter i fails, the record updates stop at its status text |
| Audio.TsvListOfChapter | src/audio_process/audio_processor.py:138-141 | a chapter directory holding its one manifest gives the chapter's name, number and result directory |
| Audio.DirKeyOfChapter | src/daisy_maker.py:97 | the chapter directories sort by their chapter number |
| Audio.AudioProcessor.SubmitChapter | src/audio_process/audio_processor.py:132-155 | one chapter of the loop, up to the merge it submits |
| Audio.AudioProcessor.RunMerge | src/audio_process/audio_processor.py:154 | the merge the worker runs for a submitted chapter |
| Audio.AudioProcessor.Collect | src/audio_process/audio_processor.py:164-167 | the collection loop over the completion order |
| Audio.AudioProcessor.CreateAudioForBook | src/audio_process/audio_processor.py:111-169 | the lists or the error of `BookAudio`, and the record updates of `AudioWrites` |
| Audio.CollectedLists | src/audio_process/audio_processor.py:164-167 | the collection succeeds exactly when every merge collected succeeded; the two lists are aligned, in completion order |
| Audio.JobOutcomePaths | src/audio_process/audio_processor.py:101-109 | a merge names its files after its own chapter |
| Audio.BookAudioLists | src/audio_process/audio_processor.py:164-169 | on success one sync file and one track per chapter, aligned, in completion order |
| Audio.BookAudioSucceeds | src/audio_process/audio_processor.py:131-169 | when every chapter is submitted and every merge succeeds, the book succeeds |
| Audio.InOrder | src/audio_process/audio_processor.py:164-167 | in submission order the lists follow the chapter directories |
| Audio.ReplaySubmitWrites | src/audio_process/audio_processor.py:119-161 | after k chapters the record holds total n, progress k and the status of chapter k |
| Audio.AudioRecord | src/audio_process/audio_processor.py:119-161 | total is the number of chapters, progress the number submitted and never above the total; on success progress equals the total, and on failure the status names the failing chapter |
| JobStatus.StatusRecord.constructor | server.py:112-117 | a new record holds the given fields and an empty log |
| JobStatus.StatusRecord.Copy | server.py:133 | the copy holds the record's four fields |
| JobStatus.StatusRecord.SetStatus | server.py:43 | sets the status, logs it, keeps the other fields |
| JobStatus.StatusRecord.SetProgress | server.py:44 | sets the progress, logs it, keeps the other fields |
| JobStatus.StatusRecord.SetTotal | server.py:45 | sets the total, logs it, keeps the other fields |
| JobStatus.StatusRecord.SetResultPath | server.py:81 | sets the result path, logs it, keeps the other fields |
| JobStatus.Update | src/audio_process/audio_processor.py:119-121 | an assignment guarded by the record's presence |
| JobStatus.Apply | src/daisy_maker.py:71 | one assignment changes its own field only |
| JobStatus.ReplayProgress | src/audio_process/audio_processor.py:119-161 | a loop that sets the total, zeroes the progress and then writes a status and a progress per step leaves the total, the step count, the last status and the result path |
| DaisyMaking.ReformatDate | src/daisy_maker.py:68 | the reformatted date is a valid calendar day written "YYYY-MM-DD"; it is a format error exactly when `strptime` finds no match at the start, and a trailing-data error only when text follows the match |
| DaisyMaking.MatchDate | src/daisy_maker.py:68 | a match splits the date into month, day and year fields of the shapes `%m`, `%d` and `%Y` accept, and the text after them |
| DaisyMaking.MatchDateOf | src/daisy_maker.py:68 | fields of those shapes followed by any text are matched as exactly those fields and that text |
| DaisyMaking.DateOutcome | src/daisy_maker.py:68 | a date written with two-digit month and day and a four-digit year gives trailing data, year 0 or a day out of range as errors in that order, and otherwise the ISO date |
| DaisyMaking.DateFormatMessage | src/daisy_maker.py:68 | the text of the format error quotes the date as `repr` does and names the format |
| DaisyMaking.DateRoundTrip | src/daisy_maker.py:68 | a valid date written "MM/DD/YYYY" comes out as "YYYY-MM-DD" |
| DaisyMaking.IsoDateRefused | src/daisy_maker.py:68 | a date already written "YYYY-MM-DD" is refused |
| DaisyMaking.DefaultDateRefused | src/daisy_maker.py:50 | the default date "2023-01-01" is refused |
| DaisyMaking.Pad4 | src/daisy_maker.py:68 | four digits that read back as the year |
| DaisyMaking.RemoveTree | src/daisy_maker.py:85-86 | exactly the files below the directory are removed |
| DaisyMaking.ArgvLayout | src/daisy_maker.py:112-123 | twelve fixed items with title, creator, date and publisher in place and no uid, then the tracks, the chapter files and the sync files |
| DaisyMaking.PackStage | src/daisy_maker.py:105-138 | on success the three lists have equal length, the last four updates are made and the archive is moved to `<title>_daisy.zip`; on failure the disk is unchanged |
| DaisyMaking.PackStageRan | src/daisy_maker.py:109-138 | once the counts agree, Anemone's outcome decides between its error and the move, the removal of the TSV directory and "finished" |
| DaisyMaking.AudioStage | src/daisy_maker.py:96-106 | on success one chapter directory per chapter file, with the audio updates and the packaging after them |
| DaisyMaking.AudioStageListed | src/daisy_maker.py:97-103 | step 3 once the chapter directories are sorted |
| DaisyMaking.AudioLengths | src/daisy_maker.py:100-106 | one sync file and one track per chapter directory |
| DaisyMaking.TsvStage | src/daisy_maker.py:80-93 | the chunk manifests are written into a cleared TSV directory, then steps 3 and 4 |
| DaisyMaking.TsvStageWritten | src/daisy_maker.py:88-96 | the run once the manifests are written |
| DaisyMaking.XmlStage | src/daisy_maker.py:70-77 | on success the chapter files, the sorted directories and the whole sequence of updates |
| DaisyMaking.XmlStageDone | src/daisy_maker.py:67-80 | the run once the DTBook side has succeeded, always with the default chunking |
| DaisyMaking.MakerRun | src/daisy_maker.py:66-142 | every run ends with "finished" or with its error status; on success the archive is delivered and the TSV directory is cleared, and on failure no archive changes |
| DaisyMaking.ReplayPack | src/daisy_maker.py:109-138 | a successful step 4 leaves the record finished at 100 with its total kept |
| DaisyMaking.SucceededRecord | src/daisy_maker.py:93-138 | after a successful run the total is the number of chapters |
| DaisyMaking.ErrorIsNotFinished | src/daisy_maker.py:138-142 | an error status is never "finished" |
| DaisyMaking.MakerRecord | src/daisy_maker.py:66-142 | the record ends "finished" exactly when the run succeeds, with progress 100 and total the number of chapters; otherwise it ends with the error status |
| DaisyMaking.DefaultDateFails | src/daisy_maker.py:50-68 | with the default date the run writes only the error status and changes nothing on disk |
| DaisyMaking.DaisyMaker.constructor | src/daisy_maker.py:17-45 | the maker keeps its directories and settings and builds its processors from them |
| DaisyMaking.DaisyMaker.CreateDaisyForBook | src/daisy_maker.py:47-142 | the record updates and the disk are those of `MakerRun`, and the rebuilt text processor has the default settings |
| DaisyMaking.DaisyMaker.XmlStep | src/daisy_maker.py:67-77 | steps 1 and 2 as `XmlStage` gives them |
| DaisyMaking.DaisyMaker.TsvStep | src/daisy_maker.py:80-93 | step 2, then steps 3 and 4, as `TsvStage` gives them |
| DaisyMaking.DaisyMaker.AudioStep | src/daisy_maker.py:96-138 | steps 3 and 4 as `AudioStage` gives them |
| Server.ZipsIn | server.py:76 | the archives directly in the directory whose names end in ".zip" |
| Server.RunWrites | server.py:43-85 | every run starts with the reset of the record |
| Server.RunDaisyCreation | server.py:40-85 | the record updates and disk of the run; a result is picked exactly when an archive is found; the maker's mode follows the chunk size while its text processor keeps the defaults |
| Server.Reset | server.py:43-45 | the record is reset to "Initializing...", 0 and 1 |
| Server.Convert | server.py:57-74 | sentence mode exactly when the chunk size is not positive, then the maker's run |
| Server.Finish | server.py:76-85 | "finished" and the path of an archive found, or the missing-archive error |
| Server.RunRecord | server.py:76-85 | an empty prompt ends in the index error; a missing archive ends in "error: Final DAISY zip file not found." whatever the maker wrote; otherwise "finished" with the archive's path |
| Server.FinalZipInDir | src/daisy_maker.py:130 | with a title without '/' the archive lies directly in the DAISY directory and ends in ".zip" |
| Server.RunFindsBook | server.py:76-81 | in a fresh directory the glob finds exactly the delivered archive on success and nothing on failure |
| Server.ZipsAfterMove | server.py:76 | moving an archive into a directory that held none leaves exactly that one |
| Server.JobServer.constructor | server.py:21-22 | no job table before startup |
| Server.JobServer.Startup | server.py:34-38 | startup creates an empty job table |
| Server.JobServer.ProcessBook | server.py:102-125 | 500 before startup, 404 for a missing input with no record created; otherwise a fresh record "starting", 0, 1, None under the new id and nothing else changed |
| Server.JobServer.GetStatus | server.py:128-133 | 404 exactly for an unknown job, otherwise a copy of its record |
| Server.JobServer.DownloadResult | server.py:136-146 | succeeds exactly when the job is "finished" with a non-empty result path that exists, giving the path and its base name; otherwise the matching 404 |

## Left out

- Reading files (`read_txt_file`) is left out. The first line of the prompt text is an input, and an empty prompt is modelled as the IndexError it raises.
- PyMuPDF is not modelled. The page texts and the table of contents are inputs. `doc.pages(start, stop)` is modelled as PyMuPDF's `Document.pages` behaves: a negative start counts from the end, a start past the last page is refused with "bad start page number", the stop is cut at the end, and a start after the stop walks backwards.
- lxml parsing and serialisation are not modelled. The combined DTBook is its text, and the tree read back from it is an input. Pretty printing, the XML declaration and the doctype of the chapter files are not modelled.
- The TTS engine (`_tts_book`, torch, ZipVoice) is an input. It yields the recordings of each chapter, their names and durations.
- pydub is modelled by durations in milliseconds. The JSON layout of the sync file is not modelled; the file is its marker list.
- Anemone is an input that either packs `output_daisy.zip` or raises with a message. The `sys.argv` assignment is modelled only as the argument list.
- Directory creation, `glob` listings and `shutil.move` failures are not modelled. Listings are inputs, and a move never fails.
- The thread pool, `as_completed` and the server's worker processes run sequentially. The completion order is a permutation parameter, and the record is shared by reference.
- uuid generation is left out: the job id is given by the caller. The model also assumes a job id that holds no '/'.
- The upload endpoint, `app.py`, logging and tqdm are left out.
- Exception texts follow CPython 3.11 to 3.13. `repr` escapes only ASCII control characters, DEL to NBSP and the soft hyphen, so other characters it would escape are shown as they are. The decoder error of a recording pydub cannot read is a stand-in text naming the file, because it comes from ffmpeg.
- AnemoneTime.MsToAnemoneTime: rounds half up on integer hundredths. Python formats a binary float, so a duration exactly half-way between two hundredths can round the other way.
- DaisyMaking.ReformatDate: accepts the field shapes `strptime` accepts for `%m`, `%d` and `%Y` with ASCII digits only. It does not model the other whitespace leniencies of `strptime`.
- Audio.NormPath: drops trailing slashes only. It does not collapse repeated slashes or "." and ".." components as `os.path.normpath` does; it is applied only to `glob` matches of "chapter_*/", whose last component is the chapter directory, so the basename taken after it is the same.
- Sentences: `\d`, `\s` and `\b` are restricted to ASCII digits, Python's whitespace and a word-character predicate covering ASCII letters, digits, '_' and the Latin and Vietnamese letter ranges. The case-insensitive "Chương" alternative protects only dots the digit alternative already protects, so it is not matched separately.
- Sentences.EllipsisEndsSentence: proved for an ellipsis after a word character that is not a digit. After a digit the first dot is protected, so "3..." becomes "3..", a line break and ".".
- Sentences.SentenceEndBroken: proved for `.`, `!` or `?` after a word character that is not a digit and before blanks and a word. A dot after a digit is a list marker and is not broken.

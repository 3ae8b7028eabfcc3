# Verified model of abp's own machinery

abp backs up and restores Android phones. It carries its own tar reader, JSON parser and printer, SHA-256,
subprocess wiring and backup and restore workflow. This project models those parts in Dafny and proves what they
are relied on for. `dafny verify dfyconfig.toml` checks everything.

The modules follow the program's files. Code that changes things step by step is a class or a method with the
program's loops, tied to a specification function; what is promised is then proved about the specification.

- `TarArchive`, `TarPax`, `TarWriter`, `TarNumbers`, `TarRoundTrip`, `TarDamage`, `TarSafety`, `TarEdgeCases`,
  `TarListing`: the archive index, against a writer of ustar, GNU and pax archives (POSIX.1-2017, `pax` utility).
- `Json`, `JsonParser`, `JsonPrinter`, `JsonGrammar`, `JsonRoundTrip`, `JsonUnicode`, `Utf8`: the JSON documents
  (RFC 8259).
- `Manifest`, `ManifestIo`, `ManifestRoundTrip`: the manifest and its text.
- `Sha256Standard`, `Sha256Constants`, `Sha256`: the streaming hash against FIPS 180-4.
- `ChildDescriptors`: the descriptor table while a child process is started.
- `JobRunner`: the GUI's one background job, as interleaved steps of request threads and workers.
- `AndroidDevice`, `PackageNames`, `PackageEntries`, `RootBackend`, `StandardBackend`, `ApkFiles`, `BackupManager`,
  `PhoneMove`, `UnrootedMove`, `WorkflowRuns`: the phone, the backup directory and the workflow. How each call through
  adb comes out, and when the user cancels, are parameters, so every result says exactly when an error appears.
- `ContentQuery`, `IcsFold`, `ShellBatches`, `DevicePaths`: text formats and algorithms; `Text`, `Bytes` and `Wrappers`
  hold what they share.

Strings whose encoding matters hold one byte in each character, as the program's strings do.

## What came out

- The pax loop need not end: a record length that wraps the 64-bit sum moves the cursor back. `TarPax.MovesForward`
  says when, `TarPax.IndexHangsIff` when indexing a file never ends, and `TarEdgeCases.BackwardFileHangs` shows a file
  on which it does not. The model's loops give up there and say so, which `TarPax.RunsForever` justifies.
- A comment at src/backup/TarArchive.cpp:134 says that an enormous size cannot overflow. The size has by then been read
  modulo 2^64, so a base-256 size of 2^64 is one of 0: `TarNumbers.SizeReadIff` says which sizes are read for what they
  are, and `TarEdgeCases.OversizedIsListed` shows the header that is listed as an empty file.
- An archive cut inside its first end-of-archive block is reported as truncated, although all members are there. The
  reader stops at the first zero block, so a cut through the second one goes unnoticed.
- In `runToFile` the child's output misses the file exactly if descriptor 0 was closed at the call and the null device
  could be opened. Moving a source descriptor to a number of 3 or more, which a comment at src/util/Process.cpp:172-175
  gives as the reason redirects cannot clobber each other, has no effect on the resulting table: each redirect removes
  its source in any case.
- The JSON parser accepts numbers with leading zeros, or with a fraction or an exponent without digits, and control
  characters in strings, which RFC 8259 does not: `JsonGrammar.ParsesExactly` says what is accepted.
- A cancel accepted between src/gui/GuiServer.cpp:300 and :301 changes nothing about the job and leaves the flag set
  until the next start.
- Without root a package that is left to the shared `adb backup` archive is marked as captured, whether or not the
  archive holds it (src/backup/StandardBackend.cpp:129-138), and later counts as restored, although the comment at
  src/backup/BackupManager.cpp:628-631 calls counting a package for which nothing was written back the one thing the
  summary must not get wrong. `UnrootedMove.MoveWithoutRoot` proves that its data comes back exactly if its app allows
  `adb backup`, and `WorkflowRuns.CountsWhatWasNotSaved` is a run in which nothing does.
- A package named like another plus ".de" shares a file with it, and one's turn can overwrite or remove the other's
  archive without an error: `RootBackend.BackupAppData` says exactly when an entry still tells the truth, and
  `WorkflowRuns.OverwritesAnArchive` is a run in which one does not.
- The result of `chown` is not looked at. A restored package counts as restored whether or not its files belong to it;
  `RootBackend.RestoredOwners` says exactly when they do, and in `WorkflowRuns.CountsWhatIsNotItsOwn` they do not.
- A directory whose existence check could not be run, or for which `tar` wrote nothing and reported success, is left out
  of a root backup without an error in its entry. `RootBackend.LeftOutIff` says that these are exactly the directories
  missing without an error, and `WorkflowRuns.LeavesDirectoryOut` is a run in which it happens.
- Numbering an APK whose name is taken can yield a name that is taken too, and the file is then overwritten:
  `ApkFiles.PulledKeptIff` says exactly when.
- Folding does not end on long runs of continuation bytes, which well-formed text does not have.
- Collapsing paths depends on how the sort orders equal lengths exactly where a relative path of one character stands
  next to the root.

## Model

| member | source | states |
|---|---|---|
| `TarArchive.ReadField` | src/backup/TarArchive.cpp:20-24 | a header field is its bytes up to the first NUL |
| `TarArchive.ReadNumber` | src/backup/TarArchive.cpp:29-46 | octal with leading padding, or base-256 when the first byte has its high bit set, in 64-bit arithmetic |
| `TarArchive.CheckChecksum` | src/backup/TarArchive.cpp:52-59 | accepts a header exactly if the sum of its bytes, with the checksum field as eight spaces, is the number recorded; what that refuses is the next row |
| `TarDamage.DamagedArchive` | src/backup/TarArchive.cpp:52-126 | take any archive of the writer, any of its header blocks and any byte of that block outside the checksum field, and change it: indexing ends there, "not a tar archive" if no entry precedes the block and "corrupt header" at its offset otherwise |
| `TarArchive.MakeCleanName` | src/backup/TarArchive.cpp:61-65 | leading "./" and then leading slashes are gone |
| `TarArchive.ReadPax` | src/backup/TarArchive.cpp:68-86 | the records of pax data, later ones overriding earlier ones, up to the first damaged one; where the loop never ends, that it does not |
| `TarPax.MovesForward` | src/backup/TarArchive.cpp:78-84 | a turn of the pax loop moves the cursor forward if and only if position plus record length stays below 2^64 |
| `TarPax.NoWrapEnds` | src/backup/TarArchive.cpp:70-85 | if at no record position plus length passes 2^64, the loop ends, whatever fields were there before |
| `TarPax.ForwardEnds` | src/backup/TarArchive.cpp:70-85 | the loop ends whenever its records move forward |
| `TarPax.RunsForever` | src/backup/TarArchive.cpp:70-85 | the model reports a run that does not end exactly on the data the loop repeats for ever: after as many turns as the data has bytes some position has come back |
| `TarPax.BackwardRunsForever` | src/backup/TarArchive.cpp:75-84 | twelve bytes of pax data, with a record length of 2^64 - 5 written as "-5", on which the loop does not end |
| `TarPax.IndexHangsIff` | src/backup/TarArchive.cpp:115-152 | indexing a file never ends if and only if the loop comes by a sound pax header on whose records the pax loop never ends |
| `TarPax.NoWrapNeverHangs` | src/backup/TarArchive.cpp:70-152 | indexing any file ends if no record of a pax header in it wraps the 64-bit sum |
| `TarEdgeCases.BackwardFileHangs` | src/backup/TarArchive.cpp:68-152 | a file of 1024 bytes, one pax header and those twelve bytes, on which indexing never ends |
| `TarPax.StepReadsRecord` | src/backup/TarArchive.cpp:71-84 | a record written with a length that counts its own digits is read back, wherever it stands |
| `Bytes.StoullReads` | src/backup/TarArchive.cpp:73-78 | the library call: white space, a sign and digits are read for the number of the digits, modulo 2^64 after a minus sign, and nothing is read exactly if there are no digits or their number is 2^64 or more |
| `TarPax.ParsesWritten` | src/backup/TarArchive.cpp:68-86 | reading any list of written records gives what they mean |
| `TarArchive.ReadMember` | src/backup/TarArchive.cpp:115-198 | one turn of the index loop, every kind of header and every way to stop |
| `TarDamage.DamagedEnd` | src/backup/TarArchive.cpp:48-126 | a block that ends an archive ends it only with all its bytes zero: with any one of them changed it is refused as a header in the same way |
| `TarDamage.MetadataTooLong` | src/backup/TarArchive.cpp:139-143 | a long name, a long link or pax records of more than 1048576 bytes are refused as a corrupt header at that offset, wherever the reader comes to them |
| `TarArchive.ReadIndex` | src/backup/TarArchive.cpp:90-200 | the whole loop with its pending long name, long link and pax fields, on every file below 2^63 bytes; the rows on round trips, cuts and damage say what that comes to |
| `TarWriter.OctalFieldReads` | src/backup/TarArchive.cpp:38-45 | an octal field of any width, however it is ended, reads back as its value |
| `TarWriter.Base256FieldReads` | src/backup/TarArchive.cpp:29-37 | a base-256 field reads back as its value, up to 2^64 |
| `TarWriter.HeaderReads` | src/backup/TarArchive.cpp:52-59 | a written header is accepted, is not taken for the end of the archive, and has its fields where the reader looks |
| `TarRoundTrip.CleansWritten` | src/backup/TarArchive.cpp:61-65 | cleaning undoes the "./" and "/" a writer put in front of a path |
| `TarRoundTrip.NameReads` | src/backup/TarArchive.cpp:159-163 | the name comes back in each form a writer can choose: in one field, split by prefix, as a GNU long name, or as a pax path, which goes before a GNU long name |
| `TarRoundTrip.LinkReads` | src/backup/TarArchive.cpp:173 | the link target comes back in each of its forms, a GNU long link going before a pax link path |
| `TarRoundTrip.SizeReads` | src/backup/TarArchive.cpp:164-171 | the size comes back as octal, base-256 or a pax size; a pax size that is no number is passed over |
| `TarRoundTrip.EntryReads` | src/backup/TarArchive.cpp:158-189 | the entry made from a written member is the member, with its data at the offset of the header plus 512 |
| `TarRoundTrip.StepAtRecord` | src/backup/TarArchive.cpp:115-198 | one turn at any record, header, metadata or member: it stops if the data is cut short, otherwise it moves past data and padding with the right pending metadata |
| `TarRoundTrip.IndexesArchive` | src/backup/TarArchive.cpp:90-200 | indexing the archive written for any list of members gives those members in order |
| `TarRoundTrip.EntriesLocateData` | src/backup/TarArchive.cpp:129-137 | the bytes from an entry's offset, as many as its size, are that member's data |
| `TarRoundTrip.CutArchive` | src/backup/TarArchive.cpp:115-137 | an archive cut at any byte lists exactly the members that lie before the cut, and is reported as truncated exactly if the cut goes through a header block or the first end-of-archive block |
| `TarSafety.StepPlaces` | src/backup/TarArchive.cpp:131-137 | on arbitrary bytes a turn keeps entries block-aligned, disjoint and inside the file, and the rounding that gives the next position from a size does not wrap; the reading of that size can, see the next two rows |
| `TarNumbers.NumberIffFits` | src/backup/TarArchive.cpp:28-46 | a field reads as the number it writes down modulo 2^64, so as that number if and only if it is below 2^64, which no octal field of a header exceeds |
| `TarNumbers.SizeReadIff` | src/backup/TarArchive.cpp:28-37 | a header is taken to have the size it writes down if and only if the first byte of the size field is below 0x80, or is 0x80 with three zero bytes after it |
| `TarNumbers.TimeFieldReads` | src/backup/TarArchive.cpp:174 | every signed 64-bit time is read back, in octal where it fits and in base-256 otherwise, before 1970 too |
| `TarEdgeCases.OversizedIsListed` | src/backup/TarArchive.cpp:28-137 | a sound header whose size is 2^64 is listed as an empty file and not seen to be cut short, whatever follows |
| `TarSafety.IndexPlaces` | src/backup/TarArchive.cpp:115-198 | on arbitrary bytes a finished index lists entries with strictly increasing, disjoint, block-aligned ranges inside the file |
| `TarSafety.HeadersBounded` | src/backup/TarArchive.cpp:115-121 | on arbitrary bytes the loop reads no more headers than the file has whole blocks |
| `TarListing.ListChildren` | src/backup/TarArchive.cpp:209-234 | the rows are the children below the prefix, each once, folders first and then by name |
| `TarListing.ShownOnce` | src/backup/TarArchive.cpp:228-233 | that order determines the rows: no two different lists show the same children |
| `TarListing.LexLessIff` | src/backup/TarArchive.cpp:209-210 | names are ordered by the first byte in which they differ, compared unsigned, and a proper prefix comes first |
| `TarListing.RowsStandFor` | src/backup/TarArchive.cpp:211-226 | for any entries: there is a row for a name if and only if some entry below the prefix has that name or lies in the folder of that name; the row is a folder if and only if one of these lies deeper or is a folder; its time is that of one of them, or 0, and no smaller than any of theirs |
| `TarListing.ChildSized` | src/backup/TarArchive.cpp:216-225 | a folder's row has the size of everything below it, a file's row its own size, when names are unique and no file is also a folder |
| `TarListing.LevelAddsUp` | src/backup/TarArchive.cpp:209-226 | the sizes of one level add up to the data below the prefix: nothing is missed or counted twice |
| `TarListing.FolderAddsUp` | src/backup/TarArchive.cpp:219-224 | a folder's size is the sum of the sizes listed inside it, at every level |
| `TarListing.IndexedDataFits` | src/backup/TarArchive.cpp:136-137 | an index holds no more data than its file, so the sums cannot wrap |
| `JsonParser.Parser.ReadDocument` | src/util/Json.cpp:16-25 | the parser with its cursor and depth computes the function `Json.ParseDocument`, errors and their offsets included; which texts that accepts, and as what, is the next row |
| `JsonGrammar.ParsesExactly` | src/util/Json.cpp:16-271 | a text is a document of a value if and only if it is a spelling of it by the grammar of RFC 8259, with white space of the four characters before and after any token, any spelling of strings, literals and numbers, later members replacing earlier ones of the same key, and at most 200 containers open at once |
| `JsonGrammar.DocumentReads` | src/util/Json.cpp:16-24 | a spelling with white space around it gives its value, and followed by anything else, a character that could continue a number aside, fails as trailing data |
| `JsonGrammar.DocumentTooDeep` | src/util/Json.cpp:36-46 | a spelling that opens more than 200 containers at once is refused as too deep |
| `JsonParser.Parser.ReadValue` | src/util/Json.cpp:104-123 | one value, with the depth raised and lowered again by containers |
| `JsonParser.Parser.ReadObject` | src/util/Json.cpp:125-145 | an object, a repeated key replacing the earlier value in place |
| `JsonParser.Parser.ReadArray` | src/util/Json.cpp:147-162 | an array |
| `JsonParser.Parser.ReadString` | src/util/Json.cpp:164-209 | a string with its escapes |
| `JsonParser.Parser.ReadUnicode` | src/util/Json.cpp:184-203 | surrogate pairs joined, unpaired halves replaced, the cursor put back when no low half follows |
| `JsonParser.Parser.ReadNumber` | src/util/Json.cpp:248-271 | the extent of a number literal and, for integers of magnitude below 10^15, its value |
| `JsonParser.ObjectBuilder.Set` | include/abp/Json.h:71-80 | replaces in place or appends |
| `JsonParser.ObjectBuilder.Get` | include/abp/Json.h:93-98 | the first member's value, or null |
| `JsonRoundTrip.SetsNewMember` | include/abp/Json.h:71-80 | a key that is not there yet is appended |
| `JsonRoundTrip.SetsOldMember` | include/abp/Json.h:71-80 | a key that is there keeps its place and gets the new value |
| `JsonRoundTrip.LooksUpWhatWasSet` | include/abp/Json.h:71-98 | after a set that key has the new value and every other key what it had |
| `JsonPrinter.Printer.DumpTo` | src/util/Json.cpp:318-372 | the printer writes exactly the text of the value at its level |
| `JsonRoundTrip.NumberReads` | src/util/Json.cpp:298-311 | an integer below 10^15 in magnitude is read back from its text |
| `JsonRoundTrip.QuotedReads` | src/util/Json.cpp:273-296 | any byte string is read back from its escaped text |
| `JsonRoundTrip.EscapesExactly` | src/util/Json.cpp:273-296 | quotes, backslashes and control characters are escaped, nothing else is, and no control character is left |
| `JsonRoundTrip.ParseUndoesDump` | src/util/Json.cpp:313-378 | parsing a printed value gives the value back, whatever the indentation |
| `JsonRoundTrip.RoundTripIffShallow` | src/util/Json.cpp:104-110 | ... exactly if it nests at most 200 containers; a deeper one is refused as too deep |
| `JsonUnicode.DocumentKeeps` | src/util/Json.cpp:164-246 | well-formed UTF-8 text parses to keys and strings that are well-formed UTF-8 |
| `JsonUnicode.StringReadIff` | src/util/Json.cpp:164-246 | the parser accepts exactly the texts made of raw characters, one-letter escapes and \u escapes between quotes, and the string it gives is what these stand for: surrogate pairs joined, unpaired halves U+FFFD, whatever stands between |
| `JsonUnicode.RunMeans` | src/util/Json.cpp:184-246 | a run of \u escapes stands for the UTF-8 of the characters they encode as UTF-16 |
| `JsonUnicode.EscapedTextMeans` | src/util/Json.cpp:184-246 | any text written as \u escapes of its UTF-16 (RFC 2781 section 2.1) is read as that text in UTF-8 |
| `Utf8.WellFormedIsEncoded` | src/util/Json.cpp:224-246 | the automaton used to say "well-formed" accepts only encodings of scalar values |
| `Utf8.EncodeAllWellFormed` | src/util/Json.cpp:224-246 | and accepts all of them |
| `Utf8.EncodeCarries` | src/util/Json.cpp:224-246 | the bits of an encoding are those of its code point |
| `ManifestIo.PackageToJson` | src/backup/Manifest.cpp:41-67 | the successive sets build the object with every field of the record |
| `ManifestIo.ManifestToJson` | src/backup/Manifest.cpp:169-195 | likewise for the whole manifest |
| `ManifestIo.WriteText` | src/backup/Manifest.cpp:169-198 | the text written is the printed object |
| `ManifestIo.ReadText` | src/backup/Manifest.cpp:200-248 | reading a text gives what its document means, non-object list elements skipped, for every way of cutting a double to a whole number |
| `ManifestRoundTrip.FromJsonUndoesToJson` | src/backup/Manifest.cpp:169-248 | every field of a manifest with sizes below 10^15 survives writing and reading |
| `ManifestRoundTrip.MethodLoaded` | src/backup/Manifest.cpp:94-105 | an entry without a capture method loads with the one its shape implies, and one with a method loads with that: said of the document that `ManifestIo.ReadText` is proved to read |
| `ManifestRoundTrip.MethodNames` | src/backup/Manifest.cpp:152-167 | the names under which the capture and root methods are stored; any other name is read as none |
| `ManifestRoundTrip.ReadsAsNothing` | include/abp/Json.h:54-68 | a value that is missing or of the wrong type reads as an empty text, false, the default or an empty list |
| `ManifestRoundTrip.NothingLoads` | src/backup/Manifest.cpp:69-248 | a document without fields loads as a manifest of format 1 in which nothing was captured, and likewise its parts |
| `ManifestIo.SaveAndLoad` | src/backup/Manifest.cpp:169-248 | a manifest with sizes below 10^15 that is written and then read is the same manifest, through the printer and the parser |
| `Sha256.Hasher.constructor` | src/util/Sha256.cpp:28-38 | the initial hash value, nothing absorbed |
| `Sha256.Hasher.ProcessBlock` | src/util/Sha256.cpp:40-79 | the in-place compression is the standard's (FIPS 180-4 section 6.2.2) |
| `Sha256.Hasher.AppendByte` | src/util/Sha256.cpp:81-87 | one byte into the buffer, compressed when it is full |
| `Sha256.Hasher.Update` | src/util/Sha256.cpp:89-106 | absorbs the bytes, whatever the state of the buffer; after the digest was taken nothing changes |
| `Sha256.Hasher.HexDigest` | src/util/Sha256.cpp:108-139 | the digest of all bytes absorbed, for messages below 2^61 bytes; later calls return the same text |
| `Sha256.PaddedDigest` | src/util/Sha256.cpp:113-139 | the padding loop and the length bytes are the standard's padding (section 5.1.1) |
| `Sha256.LengthBytes` | src/util/Sha256.cpp:124-127 | the loop of shifts gives the length as the standard's eight bytes, most significant first |
| `Sha256.HashPieces` | src/util/Sha256.cpp:147-171 | over every split of a message into update calls the digest is the standard's; that the constants and functions it is made of are the standard's is the next rows |
| `Sha256Constants.PrimesAreFirst` | src/util/Sha256.cpp:13-22 | the table of primes below holds the first 64, in order, none left out |
| `Sha256Constants.RoundConstants` | src/util/Sha256.cpp:13-22 | each of the 64 constants is the first 32 bits of the fractional part of the cube root of the prime of its number (section 4.2.2) |
| `Sha256Constants.InitialHash` | src/util/Sha256.cpp:28-37 | each of the eight words is that of the square root (section 5.3.3) |
| `Sha256Constants.BigSigma0Bits` | src/util/Sha256.cpp:61 | every bit is the sum of the bits 2, 13 and 22 places up, going round |
| `Sha256Constants.BigSigma1Bits` | src/util/Sha256.cpp:58 | every bit is the sum of the bits 6, 11 and 25 places up, going round |
| `Sha256Constants.SmallSigma0Bits` | src/util/Sha256.cpp:49 | every bit is the sum of the bits 7 and 18 places up, going round, and the bit 3 places up, if there is one |
| `Sha256Constants.SmallSigma1Bits` | src/util/Sha256.cpp:50 | the same with 17, 19 and 10 |
| `Sha256Constants.ChBits` | src/util/Sha256.cpp:59 | every bit is that of y or of z, as the bit of x says |
| `Sha256Constants.MajBits` | src/util/Sha256.cpp:62 | every bit is the one that two of the three have |
| `Sha256Constants.HexSpells` | src/util/Sha256.cpp:133-136 | a word is written as its eight digits in lower case, the most significant first |
| `ChildDescriptors.Redirect` | src/util/Process.cpp:160-186 | whatever the numbers, and whether or not moving the source away succeeds: the source is gone, the target refers to its file and survives exec |
| `ChildDescriptors.NextFree` | src/util/Process.cpp:114-126 | after any descriptors opened by a call the kernel hands out the next free number of the table the call began with |
| `ChildDescriptors.Pipe.Open` | src/util/Process.cpp:114-126 | both ends or neither, close-on-exec, at the next two free numbers |
| `ChildDescriptors.RedirectsAgree` | src/util/Process.cpp:398-404 | three redirects in a row put the three files in place unless the output is number 0 and an input is put there first |
| `ChildDescriptors.ChildSees` | src/util/Process.cpp:393-408 | what exec leaves: the three streams in place, everything else as inherited, or the one exception spelled out |
| `ChildDescriptors.Run` | src/util/Process.cpp:371-420 | the child execs with exactly the intended streams for every initial table; the parent's table is as before on every path; a child is spawned exactly if fork works and enough numbers are free |
| `ChildDescriptors.RunToFile` | src/util/Process.cpp:432-473 | likewise, the streams being the intended ones exactly when the next row says |
| `ChildDescriptors.WritesToFileIff` | src/util/Process.cpp:454-458 | the child's streams are the intended ones, and its output the file, if and only if descriptor 0 was open at the call or the null device could not be opened |
| `ChildDescriptors.ClosedInputLosesOutput` | src/util/Process.cpp:454-458 | with descriptor 0 closed at the call no descriptor of the child refers to the file |
| `ChildDescriptors.RunFromFile` | src/util/Process.cpp:485-520 | the child execs with the file as its input for every initial table; the parent's table is as before |
| `JobRunner.Runner.Start` | src/gui/GuiServer.cpp:253-275 | refused while a job runs; otherwise the new job takes over all fields and the process-wide cancel flag is lowered |
| `JobRunner.Runner.Cancel` | src/gui/GuiServer.cpp:329-335 | only a running job is marked, and the process-wide flag is raised for it |
| `JobRunner.Runner.Dismiss` | src/gui/GuiServer.cpp:338-345 | only a finished job is forgotten |
| `JobRunner.Runner.Append` | src/gui/GuiServer.cpp:357-360 | one line more in the log |
| `JobRunner.Runner.Finish` | src/gui/GuiServer.cpp:362-368 | records verdict, result and time and clears running |
| `JobRunner.Runner.NewLines` | src/gui/GuiServer.cpp:324 | the log lines at or after a position |
| `JobRunner.StepKeeps` | src/gui/GuiServer.cpp:239-368 | every step of every thread keeps the whole invariant, from which the rows on whole runs are proved |
| `JobRunner.OneWorkerAlways` | src/gui/GuiServer.cpp:253-304 | on every run at most one worker is before its finish, running says exactly that whenever the mutex is free, and the sinks are that worker's own or none |
| `JobRunner.BeginsClean` | src/gui/GuiServer.cpp:255-275 | when a worker is created no cancel is pending, no earlier worker can act, no sink is installed and no joinable thread is overwritten |
| `JobRunner.CancelledIff` | src/gui/GuiServer.cpp:295-301 | a job is reported cancelled if and only if a cancel landed before its worker looked for one |
| `JobRunner.VerdictIff` | src/gui/GuiServer.cpp:285-301 | on every run, of every worker past its look at the flag: cancelled if and only if a cancel landed in time, otherwise failed if and only if its work threw or returned an outcome that is no success, otherwise succeeded; with the outcome its work returned, or none |
| `JobRunner.PublishedIff` | src/gui/GuiServer.cpp:285-368 | on every run, from a job's finish to the next start, that verdict and that outcome are what is published, unless it was dismissed |
| `JobRunner.LogIs` | src/gui/GuiServer.cpp:253-360 | on every run the log is what its steps logged for the job since its start, in order, and nothing of an earlier one |
| `JobRunner.IdleFlagIff` | src/gui/GuiServer.cpp:297-301 | with no job running, the cancel flag is left set if and only if a cancel landed on the last job between clearing the flag and finishing |
| `JobRunner.LateCancelHappens` | src/gui/GuiServer.cpp:297-301 | a run on which that happens: the cancel is accepted, the job succeeds, the flag stays |
| `JobRunner.MutexComesFree` | src/gui/GuiServer.cpp:254-257 | joining under the mutex cannot deadlock: in every reachable state with the mutex held a step towards its release is enabled |
| `JobRunner.JoinCanReturn` | src/gui/GuiServer.cpp:347-354 | whoever waits in join can always come to return |
| `JobRunner.PollsAddUp` | src/gui/GuiServer.cpp:307-326 | a client that asks for the lines after those it has gets the rest of the log, once and in order |
| `PackageNames.Sanitize` | src/util/FsUtil.cpp:87-99 | plain characters stay, all others become underscores |
| `PackageNames.ValidIff` | src/util/StringUtil.cpp:72-78 | a package name is valid if and only if it has at most 255 characters and is a letter-led word and one or more further words with dots between them |
| `PackageNames.ArchivesShareAName` | src/backup/RootBackend.cpp:77-88 | two archives of valid packages share a file name if and only if one package is named like the other plus ".de", or they are the same archive |
| `PackageEntries.Find` | src/backup/Manifest.cpp:258-263 | the first entry with a name |
| `RootBackend.CaptureTree` | src/backup/RootBackend.cpp:35-57 | captured exactly if the phone showed the directory and tar wrote it whole, failed exactly if tar failed on a directory the phone showed; no file is left behind otherwise |
| `RootBackend.BackupEntry` | src/backup/RootBackend.cpp:73-105 | one package: an error if and only if its name is not one or tar failed on a directory the phone showed, an archive recorded exactly for the trees captured (`BackedUpIff` unfolds this), and each of its two files written, removed or left alone accordingly |
| `RootBackend.LeftOutIff` | src/backup/RootBackend.cpp:35-57 | an entry without an error lacks a directory of its package if and only if the existence check for it failed or tar wrote nothing and reported no failure: what the entries computed by `BackupEntry` come to |
| `RootBackend.BackupAppData` | src/backup/RootBackend.cpp:59-107 | whatever adb answers and whenever the user cancels, the packages up to some point have had their turns, all of them unless cancelled; what an entry says is true of the phone and the disk if and only if no later turn wrote or removed the file of one of its archives, as that of a package named like it plus ".de" can; nothing else on disk changes |
| `RootBackend.RestoreTree` | src/backup/RootBackend.cpp:109-133 | missing exactly without the directory or its owner, a failed extraction exactly if unpacking stops, and the resulting phone in each case |
| `RootBackend.RestoreEntry` | src/backup/RootBackend.cpp:147-207 | no error if and only if the name is one, every archive is there and passes its check, and for each the directory is there, adb tells its owner and unpacking goes through; the phone is exactly what the turn makes of it, whatever the archives hold |
| `RootBackend.RestoreAppData` | src/backup/RootBackend.cpp:135-210 | the entries have their turns in order up to a cancel, each with exactly the error and the effect its turn has on the phone its predecessors left; where the archives that pass their check are ones of their own packages the turns do not touch one another, and what had no turn is untouched |
| `RootBackend.Untouched` | src/backup/RootBackend.cpp:140-176 | a package not asked for, or with a missing, unreadable or mismatching archive, is not touched, nor is a tree without an archive |
| `RootBackend.RestoredOwners` | src/backup/RootBackend.cpp:130 | everything belongs to the app's own user if and only if chown, whose result is not looked at, missed nothing that belonged to another |
| `RootBackend.RestoresWhatWasCaptured` | src/backup/RootBackend.cpp:35-207 | backup, any change to the directory its digests can tell, restore onto a phone in any state: no error if and only if the archives pass the check and each has a directory to go to, and then every captured tree is back (`HeldMeans` says it file by file) |
| `StandardBackend.CaptureViaRunAs` | src/backup/StandardBackend.cpp:20-51 | captured exactly if run-as works and tar wrote the whole directory; otherwise the entry is unchanged |
| `StandardBackend.SharedIffAllowed` | src/backup/StandardBackend.cpp:102-139 | a package marked as captured in the shared archive is in it if and only if its app allows adb backup |
| `StandardBackend.BackupAppData` | src/backup/StandardBackend.cpp:55-140 | every entry is as it was or what its turn makes of it, captured through run-as, marked as shared or in error; uncancelled every package asked for had its turn, and the shared archive is named exactly if one was made; it then holds exactly the packages left over whose apps allow it |
| `StandardBackend.RestoreAppData` | src/backup/StandardBackend.cpp:142-242 | uncancelled, an entry ends without an error if and only if everything it needs is there, from its own archive or the shared one; the directories of every package that a restore of the shared archive does not bring back are exactly what the turns make of them |
| `StandardBackend.RestoresWhatWasCaptured` | src/backup/StandardBackend.cpp:20-203 | capture through run-as and restore: no error if and only if the archive passes the check, the directory is there and unpacking goes through, and then it holds, file by file, all that was captured, owned by the app, and all else it had |
| `ApkFiles.LocalNamesDistinctIff` | src/backup/BackupManager.cpp:72-85 | no two APKs of a package are pulled to one file if and only if for none of them both its own and its numbered name are taken |
| `ApkFiles.ApksCanClash` | src/backup/BackupManager.cpp:82-85 | three device paths for which the third APK overwrites the first |
| `ApkFiles.PulledKeptIff` | src/backup/BackupManager.cpp:63-92 | with no failed pull and APKs that differ from one another, every APK of a package is in the file listed for it if and only if for none of them both its own and its numbered name are taken |
| `ApkFiles.ExtractPackage` | src/backup/BackupManager.cpp:59-108 | the APKs that could be pulled are listed in order, there is an error if and only if one could not, and the disk is what the pulls leave |
| `ApkFiles.ExtractApks` | src/backup/BackupManager.cpp:55-109 | the same for all packages; where no two packages share a directory the pulls of one leave the APKs of the others alone |
| `ApkFiles.InstallApks` | src/backup/BackupManager.cpp:111-132 | uncancelled, an entry has an error if and only if it had one or its APKs could not be installed; the directories of an installed app are there afterwards, all others are as they were |
| `BackupManager.MarkCancelled` | src/backup/BackupManager.cpp:459-465 | exactly the entries nothing was captured for get the error |
| `BackupManager.RunBackup` | src/backup/BackupManager.cpp:356-465 | cancelled or not, whatever adb answers: where the manifest names an archive of a package, that holds what the phone had, except as root if and only if a later turn spoiled it; a package marked as shared is in the shared archive if and only if its app allows that. Uncancelled, each entry has an error if and only if an APK could not be pulled or its data not captured, and lists exactly what was had; cancelled, every package nothing was captured for says so |
| `WorkflowRuns.LeavesDirectoryOut` | src/backup/RootBackend.cpp:40-42 | a whole run in which only the existence check of one directory fails: the entry has neither the directory nor an error |
| `WorkflowRuns.OverwritesAnArchive` | src/backup/RootBackend.cpp:77-88 | a whole run, with no failed call, after which the file one entry names holds the data of a package named like it plus ".de", neither entry having an error |
| `BackupManager.Select` | src/backup/BackupManager.cpp:561-570 | an entry is selected if and only if the names asked for are none or hold its name, and the names excluded do not; then its backup-time error is cleared, and otherwise it is as it was |
| `BackupManager.PicksExactly` | src/backup/BackupManager.cpp:561-570 | the selected names are those in `only`, or all if that is empty, that are not in `exclude` |
| `BackupManager.Count` | src/backup/BackupManager.cpp:632-643 | the three counts |
| `BackupManager.CountsAddUp` | src/backup/BackupManager.cpp:633-643 | restored, failed and skipped add up to the number of selected packages |
| `BackupManager.OutcomeIff` | src/backup/BackupManager.cpp:633-643 | a selected package counts as failed if and only if something it needs is not there, and as restored exactly if otherwise the backup has something for it that was asked for; then its APKs were installed, and its data was written back if and only if the shared archive holds it, should it count on that: said of what `RunRestore` is proved to owe every entry |
| `BackupManager.RunRestore` | src/backup/BackupManager.cpp:561-643 | a name in `exclude`, or missing from a non-empty `only`, is not selected, keeps its entry with its error and, unless a shared archive that is restored holds it, has its directories as they were; every other name is selected and its backup-time error cleared; the counts are those of the entries and add up; uncancelled a selected package ends without an error if and only if everything it needs is there once the apps are installed, and then its data was written back unless it counts on a shared archive that lacks it; packages neither selected nor in a shared archive that is restored are left alone |
| `PhoneMove.MovedIff` | src/backup/BackupManager.cpp:317-658 | right after a root backup a selected package is restored without an error if and only if its APKs install and each captured directory is on the phone, its owner told, its archive readable and unpacked |
| `PhoneMove.InstalledByItsApks` | src/backup/BackupManager.cpp:111-132 | an app restored with its APKs is installed on any phone, whatever directories it brings |
| `PhoneMove.MoveToAnotherPhone` | src/backup/BackupManager.cpp:317-658 | backup, writing and reading the manifest, and restore composed: no error if and only if all that was captured of a package can be put on the other phone once its app is installed, each captured directory then held there, nothing else touched; and with no failed call and no cancel every selected package that is installed there, before or by this restore, arrives with all its directories, owned by their own owners |
| `UnrootedMove.MoveWithoutRoot` | src/backup/BackupManager.cpp:317-658 | the same without root: no error if and only if all that was captured can be put there; what run-as captured is then there in full; a package left to the shared archive counts as restored, its data was written back if and only if its app allows adb backup, and otherwise nothing has happened to it; what was not selected is touched only if it came along in that archive |
| `WorkflowRuns.CountsWhatWasNotSaved` | src/backup/BackupManager.cpp:628-641 | a whole run, with no failed call, in which a package counts as restored and nothing on the phone has changed |
| `WorkflowRuns.CountsWhatIsNotItsOwn` | src/backup/RootBackend.cpp:127-132 | a whole run in which chown misses a file: the package counts as restored and the file belongs to another user |
| `ContentQuery.FindStarts` | src/backup/PersonalData.cpp:668-675 | a row starts where a line starts with the marker of the next number |
| `ContentQuery.ReadRow` | src/backup/PersonalData.cpp:679-707 | one row's cells |
| `ContentQuery.StripIs` | src/backup/PersonalData.cpp:680 | carriage returns and line feeds at the end go, and nothing else |
| `ContentQuery.ParseContentQuery` | src/backup/PersonalData.cpp:660-710 | the rows of an output, malformed ones dropped |
| `ContentQuery.StartsIff` | src/backup/PersonalData.cpp:668-675 | the rows are found exactly where they were printed if and only if no row holds the next marker at the start of a line |
| `ContentQuery.SeparableIff` | src/backup/PersonalData.cpp:697-703 | for columns without commas, a value separates if and only if it does not contain the text before the next column |
| `ContentQuery.ReadsPrinted` | src/backup/PersonalData.cpp:660-710 | the parser undoes the printer, NULL reading as empty and the last value losing its trailing line ends |
| `IcsFold.VcardEscape` | src/backup/PersonalData.cpp:554-567 | the escaped text |
| `IcsFold.FoldIcsLine` | src/backup/PersonalData.cpp:581-594 | the pieces of the line joined by line breaks, or that the loop never ends, for every line |
| `IcsFold.StuckIff` | src/backup/PersonalData.cpp:585-591 | the loop runs for ever if and only if the line holds 75 continuation bytes after its first byte or 74 after a later one |
| `IcsFold.StuckLine` | src/backup/PersonalData.cpp:585-591 | such a line: a letter and 75 continuation bytes |
| `IcsFold.FoldsFaithfully` | src/backup/PersonalData.cpp:581-594 | for every well-formed line without a line end: at most 75 octets a line, at least 72 in all but the last, no character split, and unfolding gives the line back |
| `IcsFold.UnescapeUndoesEscape` | src/backup/PersonalData.cpp:554-567 | one-pass unescaping recovers the text minus carriage returns |
| `IcsFold.EscapesTheRest` | src/backup/PersonalData.cpp:554-567 | of an escaped text, what stands outside of two-character escapes is the value without its backslashes, commas, semicolons and line ends |
| `IcsFold.PropertyComesBack` | src/backup/PersonalData.cpp:829-838 | a property whose value was escaped and then folded comes back |
| `ShellBatches.RunShellBatches` | src/adb/AdbClient.cpp:410-428 | runs the greedy scripts in order; the output is theirs, each ended by a line end, whatever they print |
| `ShellBatches.OrderlyOutput` | src/adb/AdbClient.cpp:413-420 | where every command prints whole lines, that is what the commands print one by one |
| `ShellBatches.ScriptsConcat` | src/adb/AdbClient.cpp:422-426 | nothing is lost, reordered or run twice |
| `ShellBatches.ScriptsFit` | src/adb/AdbClient.cpp:422-425 | every script has at most 3500 bytes unless it is a single command |
| `ShellBatches.FewestScripts` | src/adb/AdbClient.cpp:422-425 | no grouping of consecutive commands under the limit needs fewer scripts |
| `ShellBatches.ResolveApkPaths` | src/adb/AdbClient.cpp:467-512 | each package gets the paths of the first answer read under its name, or keeps what it had, whatever the device prints; from a device that answers in whole lines without markers that is its own answer |
| `ShellBatches.PathsAreRead` | src/adb/AdbClient.cpp:496-501 | from an answer of lines `package:<path>`, white space around them, and of other lines, the paths read are those paths in order |
| `ShellBatches.AsksPlainly` | src/adb/AdbClient.cpp:480-481 | the question for a valid package name, as the shell is given it |
| `ShellBatches.QuotedIsOneWord` | src/util/StringUtil.cpp:59-70 | a shell reads what is quoted as that very text, whatever it holds, and no character of it stands outside of quotes but after a backslash |
| `ShellBatches.AsOneByOne` | src/adb/AdbClient.cpp:467-512 | from a device that answers in whole lines without markers, what is read for a package from the output of the scripts for all of them is what would be read for it from a script of its own |
| `ShellBatches.AskedFit` | src/adb/AdbClient.cpp:478-482 | no script of questions exceeds the limit |
| `DevicePaths.NormalizePath` | src/util/DevicePaths.cpp:29-50 | the normalized path |
| `DevicePaths.NormalizeIsNormal` | src/util/DevicePaths.cpp:29-50 | normalizing gives a normal path, keeps it absolute or relative, and leaves normal paths alone |
| `DevicePaths.NormalizeKeepsNames` | src/util/DevicePaths.cpp:29-50 | normalizing keeps the names between the slashes |
| `DevicePaths.TrimIs` | src/util/StringUtil.cpp:37-48 | the six white space characters go at both ends, and nothing else |
| `DevicePaths.BeneathIff` | src/util/DevicePaths.cpp:52-59 | below means: below the root, or the segments between the slashes go on from those of the path above |
| `DevicePaths.BeneathTransitive` | src/util/DevicePaths.cpp:52-59 | lying below is transitive |
| `DevicePaths.BeneathLinear` | src/util/DevicePaths.cpp:52-59 | the paths above a path lie above one another |
| `DevicePaths.CollapseRedundant` | src/util/DevicePaths.cpp:118-156 | the topmost inputs in order of first appearance, for any sort by length |
| `DevicePaths.CollapsedCovers` | src/util/DevicePaths.cpp:118-156 | none of the results lies below another, and every input lies below exactly one of them |
| `DevicePaths.AbsoluteIsSettled` | src/util/DevicePaths.cpp:129-131 | for absolute inputs the order of paths of equal length does not matter |
| `DevicePaths.SettledIff` | src/util/DevicePaths.cpp:129-143 | for any inputs: the order in which the sort leaves equal lengths makes no difference to the result if and only if no other path of one character stands next to the root |

## Left out

- JsonParser.Parser.ReadNumber: JSON numbers that are not integers of magnitude below 10^15 are kept as their literals.
  Their doubles and how those are printed are not modelled, nor is the range error of `stod`; the whole number a double
  is cut to is a parameter of reading a manifest.
- JsonGrammar.ParsesExactly: the same numbers.
- Sha256.Hasher.HexDigest: says nothing about messages of 2^61 bytes or more, whose bit length exceeds 64 bits.
- ChildDescriptors.Run: other threads opening or closing descriptors during the call are not modelled, nor are the early
  returns for an empty command or a pending cancel, `poll`, the transfer of data, signals and `waitpid`.
- JobRunner.StepKeeps: the protocol is modelled on values, one step for each critical section or shared access; signals,
  exceptions of the thread constructor and the order of memory accesses below that are not modelled.
- ApkFiles.InstallApks: an installed app has its two directories at once, empty if it is new; what it writes there by
  itself is not modelled.
- RootBackend.BackupAppData: a call is known by what it is about, so the same call made again would have the same
  answer; no run makes one twice. The phone's directories do not change while a backup runs, and an archive reported
  as good holds the whole directory.
- RootBackend.RestoreAppData: force-stop, restorecon and the final notice about system apps are no-ops.
- StandardBackend.RestoreAppData: which packages an `adb restore` of the shared archive brings back is modelled, what it
  makes of their directories is a parameter.
- BackupManager.RunBackup: shared storage, device paths, personal data exports and the coverage report are not modelled;
  package names on a phone are taken to be distinct.
- BackupManager.RunRestore: starts from a manifest that tells the truth about its own archives and a backup directory
  changed at most in ways the recorded digests tell; the version check of the manifest, shared storage and personal data
  are not modelled.
- PhoneMove.MoveToAnotherPhone: files are smaller than 10^15 bytes, as the numbers in the manifest's text need, and no
  package's archive is overwritten during the backup by that of one named like it plus ".de".
- UnrootedMove.MoveWithoutRoot: files are smaller than 10^15 bytes here too.
- TarArchive.ReadIndex: files of 2^63 bytes or more, which a signed 64-bit file offset cannot address.
- TarArchive.ReadMember: the same.
- ShellBatches.RunShellBatches: what a command prints does not depend on the script it is run in; the probe for `run-as`
  is a parameter in `AndroidDevice`.
- The wording of error messages, beyond what the contracts quote, and all log output.
- Compression, `tar` on the phone and the file system: an archive is an abstract directory.
- Shared storage, raw device path captures and personal data exports, apart from the three text functions above.
- The archive explorer, the backup store, the HTTP server, the routing of the GUI and the command line.
- Device and package listings, root detection, Wi-Fi and contact parsing, URL quoting: they would add only easy
  members.

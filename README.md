# Emotion-classification dataset parser, modelled in Dafny

This project models `parser.py` of the emotion-classification scripts. That
file turns a folder tree of acted speech recordings into records. Each
recording is named by a strict convention, for example
`03-01-05-02-02-01-12.wav`, and may have a feature sidecar `<stem>.txt`
beside it. The model covers:

- the `Gender`, `Emotion` and `EmotionIntensity` enumerations and the
  `ValueError` raised for an unknown value;
- `AudioFile.__init__`:
  - it splits the stem on `-` and decodes tokens 3 to 7 into emotion,
    intensity, statement id (with its sentence), repetition and actor id;
  - it derives the gender as `actor_id % 2`;
  - it reads the sidecar line by line, and each line's whitespace-separated
    fields replace those of the line before;
- `AudioParser.__init__`: the nested walk over actor folders and their
  entries. It skips every entry whose `splitext` extension is not `.wav` and
  appends one record per remaining entry, in listing order. An exception
  raised by a record aborts the walk.

The outside world is given as values:

- the `audio` listing is a sequence of `ActorFolder(name, entries)`, each in
  listing order;
- the working directory is a string;
- the files on disk are a map from path to text content.

Modules:

- `Wrappers`: `Option` and `Result`.
- `PyStr`: the Python string operations used:
  - `split('-')`, `split()`, `rstrip()` and `int()` on a decimal token;
  - two reference definitions that `parser.py` does not call: `JoinWith`
    (`sep.join`) and `NatToString` (`str(n)`). They are the inverses in the
    round-trip lemmas for `split` and `int()`;
  - cutting text after each newline, as iterating a text file does (the
    function `TextLines` that applies it to a file's content is in `Parser`).
- `PyPath`: `os.path.splitext`, `join` and `dirname` (POSIX).
- `Parser`:
  - the enumerations and the stem decoder `DecodeStem`;
  - the record `AudioFile`, built by the method `ReadAudioFile` and
    specified by the function `AudioFileOf`;
  - the walk, as the class `AudioParser`.

The constructor `AudioParser.__init__` can raise. It is therefore the static
method `AudioParser.Create`, which returns `Success(parser)` or the first
error. Its two nested loops are three methods:

- `Create` loops over the folders;
- `CollectFolder` loops over one folder's entries;
- `AddRecording` is the body for one entry, with the `continue`.

All three append to the field `audioFiles`. They are proved against the
specification function `Collected`: decode every `.wav` entry of
`WavEntries` in order, stopping at the first error.

Where the code and the dataset's documented convention disagree, the model
follows the code:

- A statement id other than 1 is not an error. It selects the "Dogs" sentence.
- Stems with more than seven tokens decode; tokens after the seventh are
  never read.
- Repetition and actor id are not range-checked.
- A strong neutral emotion is accepted.
- A sidecar with several lines yields the fields of its last line. A blank
  last line yields no features.

## Model

| member | source | states |
|---|---|---|
| Parser.GenderFromValue | parser.py:17-19 | `Gender(v)` succeeds exactly for v in 0..1 and returns the member whose value is v |
| Parser.EmotionFromValue | parser.py:23-31 | `Emotion(v)` succeeds exactly for v in 1..8 and returns the member whose value is v |
| Parser.IntensityFromValue | parser.py:35-37 | `EmotionIntensity(v)` succeeds exactly for v in 1..2 and returns the member whose value is v |
| Parser.EnumValuesRoundTrip | parser.py:17-37 | every member of the three enumerations is recovered from its value |
| Parser.StatementText | parser.py:70-73 | the sentence is "Kids are talking by the door" iff the statement id is 1, and "Dogs are sitting by the door" for every other id |
| Parser.DecodeStem | parser.py:52-83 | decodes a file stem: splits it on `-` and decodes the tokens; specified by `DecodeStemSpec`, `DecodeStemError` and `DecodeStemRoundTrip` |
| Parser.DecodeTokens | parser.py:59-83 | decodes tokens 3-7 in source order, raising the first error; specified by `DecodeStemSpec`, `DecodeStemError` and `DecodeTokensRoundTrip` |
| Parser.TokenValue | parser.py:59 | `int(tokens[i])` succeeds iff token i exists and is decimal, with its integer value; a missing token is the IndexError and a non-decimal one the ValueError |
| Parser.DecodeStemSpec | parser.py:52-83 | decoding succeeds iff there are at least 7 tokens, tokens 3-7 are integers, emotion is in 1..8 and intensity in 1..2; then each field is the value of its token, the text follows the statement id, and gender value is actor id mod 2 |
| Parser.DecodeStemError | parser.py:52-83 | the error is that of the first failing step in source order: the IndexError of the first missing token among tokens 3-7, the ValueError of a non-integer token, or the ValueError of an emotion out of 1..8 or an intensity out of 1..2; the gender step never fails |
| Parser.GenderOfActor | parser.py:79-83 | the gender of any non-negative actor id is defined: even ids are FEMALE, odd ids MALE |
| Parser.DecodeStemRoundTrip | parser.py:52-79 | a stem built from any record with consistent derived fields decodes back to that record, whatever tokens 1-2 are and whatever tokens follow the 7th |
| Parser.DecodeTokensRoundTrip | parser.py:59-83 | tokens 3-7 spelled in canonical decimal decode to the record they encode |
| Parser.DecodeExample | parser.py:51-83 | the stem joined from the tokens `03 01 05 02 02 01 12` decodes to Angry, Strong, statement 2 with the "Dogs" sentence, repetition 1, actor 12, FEMALE |
| Parser.DecodeLenientExample | parser.py:52-79 | the stem joined from the tokens `03 01 01 02 07 03 05 99` decodes: strong neutral, statement 7 with the "Dogs" sentence, and the eighth token is ignored |
| Parser.AudioFileOf | parser.py:41-96 | the record that `AudioFile(path, filename)` builds, or the decoder's error; specified by `AudioFileOfSpec`, and `ReadAudioFile` is proved equal to it |
| Parser.SidecarPath | parser.py:88-89 | the sidecar is `<stem>.txt` joined to the recording's folder; specified by `SidecarInFolder` |
| Parser.TextLines | parser.py:92-94 | the lines that iterating the sidecar yields, each with its newline; specified by `SplitAfterConcat`, `SplitAfterShape`, `SplitAfterAppend` and `OneLineText` |
| Parser.Features | parser.py:94-96 | the features the loop leaves: the fields of the stripped last line, or none; specified by `LastLineWins`, `BlankLastLine`, `EmptySidecar` and `SingleLineSidecar` |
| Parser.SidecarFeatures | parser.py:87-96 | the features of the sidecar, or none when it does not exist; specified by `AudioFileOfSpec` and `SidecarBesideAudio` |
| Parser.ReadAudioFile | parser.py:41-98 | constructing a record, including the loop over sidecar lines, gives exactly `AudioFileOf(path, name, files)` |
| Parser.AudioFileOfSpec | parser.py:41-98 | a record exists iff its stem decodes, and otherwise the error is the decoder's; the record keeps path and name, its stem and extension are the parts of `splitext`, it lies in `dirname(path)`, and its features are those of `<stem>.txt` in that folder, none when that sidecar is absent |
| Parser.SidecarBesideAudio | parser.py:88-90 | for `folder/name`, the record lies in `folder` and its features are those of `folder/<stem>.txt` |
| Parser.SidecarInFolder | parser.py:88-89 | the sidecar path of a plain name is `folder + "/" + stem + ".txt"` |
| Parser.LastLineWins | parser.py:94-96 | whatever lines come first, the features are `split()` of the stripped last line |
| Parser.BlankLastLine | parser.py:94-96 | a blank last line leaves no features, whatever lines came before |
| Parser.EmptySidecar | parser.py:90-96 | an empty sidecar leaves no features |
| Parser.SingleLineSidecar | parser.py:92-96 | a sidecar holding one line of space-separated values yields exactly those values |
| Parser.OneLineText | parser.py:94 | a line followed by a newline is iterated as that single line |
| Parser.ActorFolderPath | parser.py:111 | the actor folder is `join(cwd, "audio", actor)`, used as the folder of every entry kept in it |
| Parser.WavEntriesIn | parser.py:114-123 | the `.wav` entries of one folder in listing order; specified by `WavEntriesInSingle` (a non-`.wav` name adds nothing), `WavEntriesInAreWav`, `WavEntriesInComplete` and `WavEntriesInAppend` |
| Parser.WavEntriesInSingle | parser.py:116-123 | a single name adds its entry exactly when its extension is `.wav`, and nothing otherwise (the `continue`) |
| Parser.WavEntries | parser.py:109-123 | the `.wav` entries of every actor folder, folder after folder; specified by `WavEntriesOfFolder`, `WavEntriesAppend`, `WavEntriesComplete` and `WavEntriesAreWav` |
| Parser.WavEntriesOfFolder | parser.py:109-123 | the walk over one actor folder keeps exactly that folder's `.wav` entries |
| Parser.WavEntriesComplete | parser.py:109-127 | every `.wav` name listed in any actor folder is kept by the walk, with its path in that folder |
| Parser.WavEntriesInAreWav | parser.py:114-123 | the entries kept from one folder are `.wav` names joined to the folder path, and no more than the names listed |
| Parser.WavEntriesInComplete | parser.py:114-127 | every listed name with a `.wav` extension is kept, as its path in the folder and its name |
| Parser.WavEntriesAreWav | parser.py:109-123 | every entry the walk keeps has a `.wav` name |
| Parser.WavEntriesInAppend | parser.py:114-120 | filtering a listing splits over concatenation, so the order of the listing is kept |
| Parser.WavEntriesAppend | parser.py:109-111 | the entries of several actor folders are those of each folder in turn |
| Parser.DecodeAll | parser.py:125-127 | the records of the entries in order, or the error of the first entry that fails; specified by `DecodeAllSpec`, `DecodeAllAppend` and `DecodeAllPrefixFailure` |
| Parser.Collected | parser.py:103-127 | what the walk collects, or its error; specified by `CollectedSpec`, and `Create` is proved against it |
| Parser.DecodeAllSpec | parser.py:125-127 | decoding all entries succeeds iff every entry decodes, then with one record per entry in order; otherwise the error is that of the first entry that fails |
| Parser.DecodeAllAppend | parser.py:125-127 | once the earlier entries decode, the later entries alone decide success, records and error |
| Parser.DecodeAllPrefixFailure | parser.py:126 | an error stops the walk: once a prefix fails, the whole walk fails with the same error |
| Parser.CollectedSpec | parser.py:103-127 | on success, record k is the `AudioFile` of the k-th kept entry, and its name is a `.wav` name |
| Parser.AudioParser.Empty | parser.py:104-106 | a new parser holds no recordings |
| Parser.AudioParser.Create | parser.py:103-127 | the walk succeeds iff `Collected` does, and then holds exactly `Collected`'s records in folder and listing order; otherwise it fails with `Collected`'s error |
| Parser.AudioParser.CollectFolder | parser.py:113-127 | the loop over one folder appends the records of its `.wav` entries in order, or stops with the first error |
| Parser.AudioParser.AddRecording | parser.py:115-127 | a non-`.wav` entry changes nothing; a `.wav` entry appends its record or reports its error |
| PyStr.IndexOf | parser.py:52 | where `split('-')` cuts next is a position of the string holding the separator, or the end of the string |
| PyStr.IndexOfSpec | parser.py:52 | no position before that cut holds the separator, so `split` cuts at the first separator, or nowhere when there is none |
| PyStr.SplitOn | parser.py:52 | `split('-')`, which never returns an empty list; specified by `SplitOnSpec` and `SplitOnJoinWith` |
| PyStr.SplitOnSpec | parser.py:52 | the pieces of `split('-')` hold no dash, and joining them with dashes gives the stem back |
| PyStr.SplitOnJoinWith | parser.py:52 | `split('-')` recovers dash-joined tokens that hold no dash |
| PyStr.ParseInt | parser.py:59 | `int()` succeeds exactly on non-empty ASCII decimal tokens |
| PyStr.ParseIntOfNatToString | parser.py:59 | `int(str(n)) == n` |
| PyStr.ParseIntLeadingZero | parser.py:59 | leading zeros do not change the value: `int("0" + t) == int(t)` |
| PyStr.NatToString | parser.py:59 | the canonical decimal spelling is decimal and has no leading zero |
| PyStr.RStrip | parser.py:95 | `rstrip()` is a prefix of the line, removes only whitespace, and leaves no trailing whitespace |
| PyStr.RStripLineEnd | parser.py:95 | `rstrip()` removes the newline of a line that ends in a non-space character |
| PyStr.SplitWs | parser.py:96 | `split()` with no argument; specified by `SplitWsSpec`, `SplitWsSkip`, `SplitWsRun`, `SplitWsJoin` and `BlankLineHasNoFields` |
| PyStr.SplitWsSpec | parser.py:96 | every field of `split()` is non-empty and free of whitespace, and the fields hold exactly the non-whitespace characters in order |
| PyStr.SplitWsSkip | parser.py:96 | leading whitespace of any kind and length adds no field and cuts none |
| PyStr.SplitWsRun | parser.py:96 | runs of whitespace separate fields: a word followed by any non-empty whitespace run is one field, and the rest is split on its own |
| PyStr.SplitWsJoin | parser.py:96 | `split()` recovers non-empty words joined by single spaces |
| PyStr.BlankLineHasNoFields | parser.py:95-96 | a whitespace-only line has no fields once stripped and split |
| PyStr.SplitAfter | parser.py:94 | cuts text after each separator, as iterating a text file cuts after each newline; specified by `SplitAfterConcat`, `SplitAfterShape` and `SplitAfterAppend` |
| PyStr.SplitAfterConcat | parser.py:94 | iterating a file's lines loses and adds nothing: the lines concatenate back to the text |
| PyStr.SplitAfterShape | parser.py:94 | no line is empty, a newline only ends a line, and every line but the last ends in one |
| PyStr.SplitAfterAppend | parser.py:94 | appending a final line to text that ends in a newline adds exactly that line |
| PyPath.SplitExt | parser.py:48 | `os.path.splitext` of a name without a directory part; specified by `SplitExtSpec`, `StemOmits` and `ExtensionWav` |
| PyPath.Join | parser.py:89 | `os.path.join` of two parts: an absolute second part replaces the first, otherwise one slash separates them; `DirNameOfJoin` states the case the walk uses |
| PyPath.DirName | parser.py:45 | `os.path.dirname`; specified by `DirNameOfJoin` for the paths the walk builds |
| PyPath.SplitExtSpec | parser.py:48 | `splitext` parts concatenate to the name; the extension is empty or one dot with no other dot; it is non-empty iff a dot follows a non-dot character |
| PyPath.StemOmits | parser.py:48 | the stem holds no character the name does not hold |
| PyPath.ExtensionWav | parser.py:116-120 | the extension is `.wav` iff the name ends in `.wav` after some non-dot character |
| PyPath.DirNameOfJoin | parser.py:45 | `dirname(join(folder, name)) == folder` for a plain name and a folder without a trailing slash |
| PyPath.LastIndexOf | parser.py:48 | `rfind` returns a position holding the character, or -1, and no later position holds it |
| PyPath.StripTrailing | parser.py:45 | stripping trailing slashes gives a prefix, removes only slashes and leaves none at the end |

## Left out

- The file system:
  - `os.listdir`, `os.getcwd`, `os.path.isfile` and `open` are not modelled;
  - the listing, the working directory and the file contents are inputs;
  - every folder entry is taken to be a directory;
  - every key of the file map is a regular file.
- Text mode translates line endings, so `\r\n` and `\r` are read as `\n`. The
  contents in the file map are taken as already translated.
- `print` diagnostics (parser.py:98) and the module-level run
  (parser.py:132-133).
- `int()` leniency: surrounding whitespace, a sign, `_` separators and
  non-ASCII digits. A token is accepted only if it is a non-empty string of
  ASCII digits; every other token is the `ValueError`.
- `splitext` on names that contain a slash, and `dirname` of paths other than
  those built by `join`.
- Errors other than the five decode errors, such as a sidecar that cannot be
  opened or decoded as text.
- The unused constants `DISVOICE_FOLDER` and `RUN_FEATURE_EXTRACTION`.
- `feature_extraction.py` and `strip_metadata.py` are not part of this model.
  They only run external programs.
- CSV rendering is not part of this model. No such code is in `parser.py`.

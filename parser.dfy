/**
 * The dataset parser: the enumerations of the recording metadata, the decoding
 * of a recording's file name, the reading of its feature sidecar, and the walk
 * over the actor folders that collects every `.wav` recording.
 *
 * The directory listing, the working directory and the files on disk are
 * given as values: a sequence of actor folders with their entries in listing
 * order, and a map from path to text content.
 */
module Parser {
  import opened Wrappers
  import opened PyStr
  import opened PyPath

  /** Base folder of the audio files, relative to the working directory. */
  const AudioFolder := "audio"

  /** The two sentences the actors speak. */
  const Kids := "Kids are talking by the door"
  const Dogs := "Dogs are sitting by the door"

  /** Gender of the speaker. */
  datatype Gender = Female | Male {
    function Value(): nat {
      match this
      case Female => 0
      case Male => 1
    }
  }

  /** Python's `Gender(v)`: `None` stands for the `ValueError` of an unknown value. */
  function GenderFromValue(v: int): (r: Option<Gender>)
    ensures r.Some? <==> 0 <= v <= 1
    ensures r.Some? ==> r.value.Value() == v
  {
    if v == 0 then Some(Female)
    else if v == 1 then Some(Male)
    else None
  }

  /** Emotion acted in the recording. */
  datatype Emotion = Neutral | Calm | Happy | Sad | Angry | Fearful | Disgust | Surprised {
    function Value(): nat {
      match this
      case Neutral => 1
      case Calm => 2
      case Happy => 3
      case Sad => 4
      case Angry => 5
      case Fearful => 6
      case Disgust => 7
      case Surprised => 8
    }
  }

  /** Python's `Emotion(v)`: `None` stands for the `ValueError` of an unknown value. */
  function EmotionFromValue(v: int): (r: Option<Emotion>)
    ensures r.Some? <==> 1 <= v <= 8
    ensures r.Some? ==> r.value.Value() == v
  {
    if v == 1 then Some(Neutral)
    else if v == 2 then Some(Calm)
    else if v == 3 then Some(Happy)
    else if v == 4 then Some(Sad)
    else if v == 5 then Some(Angry)
    else if v == 6 then Some(Fearful)
    else if v == 7 then Some(Disgust)
    else if v == 8 then Some(Surprised)
    else None
  }

  /** Whether the emotion was acted normally or strongly. */
  datatype EmotionIntensity = Normal | Strong {
    function Value(): nat {
      match this
      case Normal => 1
      case Strong => 2
    }
  }

  /** Python's `EmotionIntensity(v)`: `None` stands for the `ValueError` of an unknown value. */
  function IntensityFromValue(v: int): (r: Option<EmotionIntensity>)
    ensures r.Some? <==> 1 <= v <= 2
    ensures r.Some? ==> r.value.Value() == v
  {
    if v == 1 then Some(Normal)
    else if v == 2 then Some(Strong)
    else None
  }

  /** Every member of the three enumerations is found again from its value. */
  lemma EnumValuesRoundTrip(e: Emotion, i: EmotionIntensity, g: Gender)
    ensures EmotionFromValue(e.Value()) == Some(e)
    ensures IntensityFromValue(i.Value()) == Some(i)
    ensures GenderFromValue(g.Value()) == Some(g)
  {
  }

  /** The sentence spoken for a statement id: id 1 is the "Kids" sentence, every other id the "Dogs" one. */
  function StatementText(statement: int): (text: string)
    ensures text == Kids <==> statement == 1
    ensures text == Dogs <==> statement != 1
  {
    if statement == 1 then Kids else Dogs
  }

  /** The exceptions that decoding a file name can raise. */
  datatype DecodeError =
    | TokenMissing(index: nat)                // IndexError on split_filename[index]
    | NotAnInteger(index: nat, token: string) // ValueError from int(split_filename[index])
    | NotAnEmotion(value: int)                // ValueError from Emotion(value)
    | NotAnIntensity(value: int)              // ValueError from EmotionIntensity(value)
    | NotAGender(value: int)                  // ValueError from Gender(value)

  /** The metadata that a file name carries. */
  datatype Metadata = Metadata(
    emotion: Emotion,
    emotionIntensity: EmotionIntensity,
    statement: nat,
    statementText: string,
    repetition: nat,
    actorId: nat,
    gender: Gender)

  /** `int(tokens[index])`, with the IndexError and the ValueError it can raise. */
  function TokenValue(tokens: seq<string>, index: nat): (r: Result<nat, DecodeError>)
    ensures r.Success? <==> index < |tokens| && IsDecimal(tokens[index])
    ensures r.Success? ==> ParseInt(tokens[index]) == Some(r.value)
    ensures index >= |tokens| ==> r == Failure(TokenMissing(index))
    ensures index < |tokens| && r.Failure? ==> r == Failure(NotAnInteger(index, tokens[index]))
  {
    if index >= |tokens| then Failure(TokenMissing(index))
    else match ParseInt(tokens[index])
      case None => Failure(NotAnInteger(index, tokens[index]))
      case Some(n) => Success(n)
  }

  /**
   * Decodes a file stem such as `03-01-05-02-02-01-12`: the dash-separated
   * tokens 3 to 7 give emotion, intensity, statement id, repetition and actor
   * id, in that order, and the gender is the actor id modulo 2. Tokens 1 and 2
   * and any token after the 7th are not read. Errors arise in source order.
   */
  function DecodeStem(stem: string): Result<Metadata, DecodeError> {
    DecodeTokens(SplitOn(stem, '-'))
  }

  /** Decodes the dash-separated tokens of a file stem, raising the first error in source order. */
  function DecodeTokens(tokens: seq<string>): Result<Metadata, DecodeError> {
    var emotionValue :- TokenValue(tokens, 2);
    var emotion :- EmotionFromValue(emotionValue).ToResult(NotAnEmotion(emotionValue));
    var intensityValue :- TokenValue(tokens, 3);
    var intensity :- IntensityFromValue(intensityValue).ToResult(NotAnIntensity(intensityValue));
    var statement :- TokenValue(tokens, 4);
    var repetition :- TokenValue(tokens, 5);
    var actorId :- TokenValue(tokens, 6);
    var gender :- GenderFromValue(actorId % 2).ToResult(NotAGender(actorId % 2));
    Success(Metadata(emotion, intensity, statement, StatementText(statement), repetition, actorId, gender))
  }

  /** The tokens a file stem must have for decoding to succeed. */
  predicate Decodable(tokens: seq<string>) {
    && |tokens| >= 7
    && IsDecimal(tokens[2]) && IsDecimal(tokens[3]) && IsDecimal(tokens[4])
    && IsDecimal(tokens[5]) && IsDecimal(tokens[6])
    && 1 <= DigitsValue(tokens[2]) <= 8
    && 1 <= DigitsValue(tokens[3]) <= 2
  }

  /**
   * Decoding succeeds exactly when there are at least seven tokens, tokens 3
   * to 7 are integers, the emotion is in 1..8 and the intensity in 1..2; then
   * every field is the integer value of its token and the gender is defined.
   */
  lemma DecodeStemSpec(stem: string)
    ensures DecodeStem(stem).Success? <==> Decodable(SplitOn(stem, '-'))
    ensures DecodeStem(stem).Success? ==>
      var t := SplitOn(stem, '-');
      var m := DecodeStem(stem).value;
      && m.emotion.Value() == DigitsValue(t[2])
      && m.emotionIntensity.Value() == DigitsValue(t[3])
      && m.statement == DigitsValue(t[4])
      && m.statementText == StatementText(m.statement)
      && m.repetition == DigitsValue(t[5])
      && m.actorId == DigitsValue(t[6])
      && m.gender.Value() == m.actorId % 2
  {
    var t := SplitOn(stem, '-');
    if |t| >= 7 && IsDecimal(t[6]) {
      var actorId := DigitsValue(t[6]);
      assert GenderFromValue(actorId % 2).Some?;
    }
  }

  /** Token `i` exists and is an integer. */
  predicate DecimalAt(tokens: seq<string>, i: nat) {
    i < |tokens| && IsDecimal(tokens[i])
  }

  /** Token 3 is read as an emotion. */
  predicate EmotionRead(tokens: seq<string>) {
    DecimalAt(tokens, 2) && 1 <= DigitsValue(tokens[2]) <= 8
  }

  /** Tokens 3 and 4 are read as an emotion and an intensity. */
  predicate IntensityRead(tokens: seq<string>) {
    EmotionRead(tokens) && DecimalAt(tokens, 3) && 1 <= DigitsValue(tokens[3]) <= 2
  }

  /**
   * Which exception decoding raises: the first failing step in source order.
   * A missing token is the IndexError, a token that is not an integer the
   * ValueError of `int()`, and an emotion or intensity out of range the
   * ValueError of the enumeration. The gender step never fails.
   */
  lemma DecodeStemError(stem: string)
    ensures var t := SplitOn(stem, '-');
      var r := DecodeStem(stem);
      && (|t| <= 2 ==> r == Failure(TokenMissing(2)))
      && (|t| > 2 && !IsDecimal(t[2]) ==> r == Failure(NotAnInteger(2, t[2])))
      && (DecimalAt(t, 2) && !(1 <= DigitsValue(t[2]) <= 8) ==> r == Failure(NotAnEmotion(DigitsValue(t[2]))))
      && (EmotionRead(t) && |t| <= 3 ==> r == Failure(TokenMissing(3)))
      && (EmotionRead(t) && |t| > 3 && !IsDecimal(t[3]) ==> r == Failure(NotAnInteger(3, t[3])))
      && (EmotionRead(t) && DecimalAt(t, 3) && !(1 <= DigitsValue(t[3]) <= 2) ==> r == Failure(NotAnIntensity(DigitsValue(t[3]))))
      && (IntensityRead(t) && |t| <= 4 ==> r == Failure(TokenMissing(4)))
      && (IntensityRead(t) && |t| > 4 && !IsDecimal(t[4]) ==> r == Failure(NotAnInteger(4, t[4])))
      && (IntensityRead(t) && DecimalAt(t, 4) && |t| <= 5 ==> r == Failure(TokenMissing(5)))
      && (IntensityRead(t) && DecimalAt(t, 4) && |t| > 5 && !IsDecimal(t[5]) ==> r == Failure(NotAnInteger(5, t[5])))
      && (IntensityRead(t) && DecimalAt(t, 4) && DecimalAt(t, 5) && |t| <= 6 ==> r == Failure(TokenMissing(6)))
      && (IntensityRead(t) && DecimalAt(t, 4) && DecimalAt(t, 5) && |t| > 6 && !IsDecimal(t[6]) ==> r == Failure(NotAnInteger(6, t[6])))
      && (r.Failure? ==> !r.error.NotAGender?)
  {
    var t := SplitOn(stem, '-');
    if |t| >= 7 && IsDecimal(t[6]) {
      GenderOfActor(DigitsValue(t[6]));
    }
  }

  /** The gender derived from any actor id: even ids are female, odd ids male. */
  lemma GenderOfActor(actorId: nat)
    ensures GenderFromValue(actorId % 2) == Some(if actorId % 2 == 0 then Female else Male)
  {
  }

  /** Metadata whose derived fields agree with the fields they are derived from. */
  predicate Consistent(m: Metadata) {
    m.statementText == StatementText(m.statement) && m.gender.Value() == m.actorId % 2
  }

  /** The five tokens that encode a metadata record in canonical decimal. */
  function EncodeTokens(m: Metadata): seq<string> {
    [ NatToString(m.emotion.Value()), NatToString(m.emotionIntensity.Value()),
      NatToString(m.statement), NatToString(m.repetition), NatToString(m.actorId) ]
  }

  /**
   * Round trip: whatever the first two tokens and whatever tokens follow the
   * seventh, a stem built from a consistent record decodes back to exactly
   * that record. Statement, repetition and actor id are not range-checked.
   */
  lemma DecodeStemRoundTrip(m: Metadata, modality: string, channel: string, extra: seq<string>)
    requires Consistent(m)
    requires '-' !in modality && '-' !in channel
    requires forall k :: 0 <= k < |extra| ==> '-' !in extra[k]
    ensures DecodeStem(JoinWith([modality, channel] + EncodeTokens(m) + extra, '-')) == Success(m)
  {
    var tokens := [modality, channel] + EncodeTokens(m) + extra;
    StemTokensHaveNoDash(m, modality, channel, extra);
    SplitOnJoinWith(tokens, '-');
    assert tokens[2..7] == EncodeTokens(m);
    DecodeTokensRoundTrip(m, tokens);
  }

  /** No token of an encoded stem contains a dash. */
  lemma StemTokensHaveNoDash(m: Metadata, modality: string, channel: string, extra: seq<string>)
    requires '-' !in modality && '-' !in channel
    requires forall k :: 0 <= k < |extra| ==> '-' !in extra[k]
    ensures var tokens := [modality, channel] + EncodeTokens(m) + extra;
      forall k :: 0 <= k < |tokens| ==> '-' !in tokens[k]
  {
    var encoded := EncodeTokens(m);
    var tokens := [modality, channel] + encoded + extra;
    EncodedTokensHaveNoDash(m);
    forall k | 0 <= k < |tokens|
      ensures '-' !in tokens[k]
    {
      if 2 <= k < 7 {
        assert tokens[k] == encoded[k - 2];
      } else if k >= 7 {
        assert tokens[k] == extra[k - 7];
      }
    }
  }

  /** Canonical decimal tokens contain no dash. */
  lemma EncodedTokensHaveNoDash(m: Metadata)
    ensures forall k :: 0 <= k < 5 ==> '-' !in EncodeTokens(m)[k]
  {
    forall k | 0 <= k < 5
      ensures '-' !in EncodeTokens(m)[k]
    {
      var s := EncodeTokens(m)[k];
      assert IsDecimal(s);
      assert forall j :: 0 <= j < |s| ==> s[j] != '-';
    }
  }

  /** Tokens 3 to 7 in canonical decimal decode to the record they encode. */
  lemma DecodeTokensRoundTrip(m: Metadata, tokens: seq<string>)
    requires Consistent(m)
    requires |tokens| >= 7 && tokens[2..7] == EncodeTokens(m)
    ensures DecodeTokens(tokens) == Success(m)
  {
    assert tokens[2] == NatToString(m.emotion.Value()) by { assert tokens[2] == tokens[2..7][0]; }
    assert tokens[3] == NatToString(m.emotionIntensity.Value()) by { assert tokens[3] == tokens[2..7][1]; }
    assert tokens[4] == NatToString(m.statement) by { assert tokens[4] == tokens[2..7][2]; }
    assert tokens[5] == NatToString(m.repetition) by { assert tokens[5] == tokens[2..7][3]; }
    assert tokens[6] == NatToString(m.actorId) by { assert tokens[6] == tokens[2..7][4]; }
    ParseIntOfNatToString(m.emotion.Value());
    ParseIntOfNatToString(m.emotionIntensity.Value());
    ParseIntOfNatToString(m.statement);
    ParseIntOfNatToString(m.repetition);
    ParseIntOfNatToString(m.actorId);
    EnumValuesRoundTrip(m.emotion, m.emotionIntensity, m.gender);
  }

  /**
   * The documented example: emotion Angry, intensity Strong, statement 2,
   * first repetition, actor 12, whose even id makes the speaker female.
   */
  lemma DecodeExample()
    ensures DecodeStem(JoinWith(["03", "01", "05", "02", "02", "01", "12"], '-')) == Success(Metadata(Angry, Strong, 2, Dogs, 1, 12, Female))
  {
    var tokens := ["03", "01", "05", "02", "02", "01", "12"];
    forall k | 0 <= k < |tokens|
      ensures |tokens[k]| == 2 && IsDigit(tokens[k][0]) && IsDigit(tokens[k][1])
    {
      assert k == 0 || k == 1 || k == 2 || k == 3 || k == 4 || k == 5 || k == 6;
    }
    SplitLiteral(tokens, JoinWith(tokens, '-'));
    ExampleTokens();
  }

  /**
   * What the code accepts beyond the naming convention: a strong neutral
   * emotion, a statement id other than 1 or 2, and an eighth token.
   */
  lemma DecodeLenientExample()
    ensures DecodeStem(JoinWith(["03", "01", "01", "02", "07", "03", "05", "99"], '-')) == Success(Metadata(Neutral, Strong, 7, Dogs, 3, 5, Male))
  {
    var tokens := ["03", "01", "01", "02", "07", "03", "05", "99"];
    forall k | 0 <= k < |tokens|
      ensures |tokens[k]| == 2 && IsDigit(tokens[k][0]) && IsDigit(tokens[k][1])
    {
      assert k == 0 || k == 1 || k == 2 || k == 3 || k == 4 || k == 5 || k == 6 || k == 7;
    }
    SplitLiteral(tokens, JoinWith(tokens, '-'));
    LenientExampleTokens();
  }

  /** The tokens of the documented example decode field by field. */
  lemma ExampleTokens()
    ensures DecodeTokens(["03", "01", "05", "02", "02", "01", "12"]) == Success(Metadata(Angry, Strong, 2, Dogs, 1, 12, Female))
  {
    TwoDigitValue("05");
    TwoDigitValue("02");
    TwoDigitValue("01");
    TwoDigitValue("12");
  }

  /** The tokens of the lenient example decode field by field; the eighth is not read. */
  lemma LenientExampleTokens()
    ensures DecodeTokens(["03", "01", "01", "02", "07", "03", "05", "99"]) == Success(Metadata(Neutral, Strong, 7, Dogs, 3, 5, Male))
  {
    TwoDigitValue("01");
    TwoDigitValue("02");
    TwoDigitValue("07");
    TwoDigitValue("03");
    TwoDigitValue("05");
  }

  /** The value of a two-digit token. */
  lemma TwoDigitValue(t: string)
    requires |t| == 2 && IsDigit(t[0]) && IsDigit(t[1])
    ensures ParseInt(t) == Some((t[0] as int - '0' as int) * 10 + (t[1] as int - '0' as int))
  {
    var head := t[..1];
    assert head[..0] == [] && head[0] == t[0];
    assert DigitsValue(head) == t[0] as int - '0' as int;
    assert t[..|t| - 1] == head;
  }

  /** Splitting a stem that joins two-digit tokens gives those tokens back. */
  lemma SplitLiteral(tokens: seq<string>, stem: string)
    requires |tokens| >= 1
    requires forall k :: 0 <= k < |tokens| ==> |tokens[k]| == 2 && IsDigit(tokens[k][0]) && IsDigit(tokens[k][1])
    requires stem == JoinWith(tokens, '-')
    ensures SplitOn(stem, '-') == tokens
  {
    forall k | 0 <= k < |tokens|
      ensures '-' !in tokens[k]
    {
      assert tokens[k] == [tokens[k][0], tokens[k][1]];
    }
    SplitOnJoinWith(tokens, '-');
  }

  /** The files on disk: path of each regular file to its text content. */
  type FileSystem = map<string, string>

  /** One recording: where it lies, its name split into stem and extension, its metadata and its features. */
  datatype AudioFile = AudioFile(
    path: string,
    fullFilename: string,
    folderPath: string,
    filename: string,
    extension: string,
    metadata: Metadata,
    features: seq<string>)

  /** The sidecar of a recording: `<stem>.txt` in the recording's folder. */
  function SidecarPath(folderPath: string, stem: string): string {
    Join(folderPath, stem + ".txt")
  }

  /** The lines a Python text file yields when iterated, each keeping its newline. */
  function TextLines(content: string): seq<string> {
    SplitAfter(content, '\n')
  }

  /** The features that reading the given lines leaves: the fields of the last line, or none. */
  function Features(lines: seq<string>): seq<string> {
    if lines == [] then [] else SplitWs(RStrip(lines[|lines| - 1]))
  }

  /** The features read from a sidecar, or none when the sidecar does not exist. */
  function SidecarFeatures(fs: FileSystem, sidecar: string): seq<string> {
    if sidecar in fs then Features(TextLines(fs[sidecar])) else []
  }

  /** What constructing an `AudioFile` for `path` and its name yields. */
  function AudioFileOf(path: string, fullFilename: string, fs: FileSystem): Result<AudioFile, DecodeError> {
    var folderPath := DirName(path);
    var (stem, extension) := SplitExt(fullFilename);
    var metadata :- DecodeStem(stem);
    var features := SidecarFeatures(fs, SidecarPath(folderPath, stem));
    Success(AudioFile(path, fullFilename, folderPath, stem, extension, metadata, features))
  }

  /**
   * Constructs the record of one recording: decodes the stem of its name, then
   * reads the sidecar line by line, each line replacing the features of the
   * line before.
   */
  method ReadAudioFile(path: string, fullFilename: string, fs: FileSystem) returns (r: Result<AudioFile, DecodeError>)
    ensures r == AudioFileOf(path, fullFilename, fs)
  {
    var folderPath := DirName(path);
    var (stem, extension) := SplitExt(fullFilename);
    var metadata :- DecodeStem(stem);
    var features: seq<string> := [];
    var sidecar := SidecarPath(folderPath, stem);
    if sidecar in fs {
      var lines := TextLines(fs[sidecar]);
      for i := 0 to |lines|
        invariant features == Features(lines[..i])
      {
        var line := RStrip(lines[i]);
        features := SplitWs(line);
      }
      assert lines[..|lines|] == lines;
    }
    r := Success(AudioFile(path, fullFilename, folderPath, stem, extension, metadata, features));
  }

  /**
   * A record exists exactly when its stem decodes, whatever the files on disk.
   * Its name is split by `splitext`, it lies in `dirname(path)`, and its
   * features are those of `<stem>.txt` in that folder: a missing sidecar gives
   * no features and does not abort.
   */
  lemma AudioFileOfSpec(path: string, fullFilename: string, fs: FileSystem)
    ensures var r := AudioFileOf(path, fullFilename, fs);
      var d := DecodeStem(Stem(fullFilename));
      && (r.Success? <==> d.Success?)
      && (r.Failure? ==> r.error == d.error)
      && (r.Success? ==>
            && r.value.path == path
            && r.value.fullFilename == fullFilename
            && r.value.metadata == d.value
            && r.value.filename == Stem(fullFilename)
            && r.value.extension == Extension(fullFilename)
            && r.value.filename + r.value.extension == fullFilename
            && r.value.folderPath == DirName(path)
            && r.value.features == SidecarFeatures(fs, SidecarPath(DirName(path), Stem(fullFilename)))
            && (SidecarPath(DirName(path), r.value.filename) !in fs ==> r.value.features == []))
  {
    var stem, extension := Stem(fullFilename), Extension(fullFilename);
    var d := DecodeStem(stem);
    if d.Success? {
      var features := SidecarFeatures(fs, SidecarPath(DirName(path), stem));
      assert AudioFileOf(path, fullFilename, fs) == Success(AudioFile(path, fullFilename, DirName(path), stem, extension, d.value, features));
      assert stem + extension == fullFilename by {
        SplitExtSpec(fullFilename);
      }
    } else {
      assert AudioFileOf(path, fullFilename, fs) == Failure(d.error);
    }
  }

  /**
   * The sidecar of `folder/name` is `folder/<stem>.txt`: the record lies in
   * `folder` and its features are those of that file, if it exists.
   */
  lemma SidecarBesideAudio(folder: string, name: string, fs: FileSystem)
    requires folder != [] && folder[|folder| - 1] != '/'
    requires '/' !in name
    ensures var r := AudioFileOf(Join(folder, name), name, fs);
      var sidecar := folder + "/" + Stem(name) + ".txt";
      r.Success? ==> r.value.folderPath == folder && r.value.features == SidecarFeatures(fs, sidecar)
  {
    DirNameOfJoin(folder, name);
    SidecarInFolder(folder, name);
  }

  /** The sidecar path of a plain name in a folder is `folder/<stem>.txt`. */
  lemma SidecarInFolder(folder: string, name: string)
    requires folder != [] && folder[|folder| - 1] != '/'
    requires '/' !in name
    ensures SidecarPath(folder, Stem(name)) == folder + "/" + Stem(name) + ".txt"
  {
    StemOmits(name, '/');
    assert '/' !in Stem(name) + ".txt";
    DirNameOfJoin(folder, Stem(name) + ".txt");
  }

  /** Only the last line of a sidecar counts: earlier lines are discarded. */
  lemma LastLineWins(earlier: string, last: string)
    requires earlier == [] || earlier[|earlier| - 1] == '\n'
    requires last != [] && '\n' !in last[..|last| - 1]
    ensures Features(TextLines(earlier + last)) == SplitWs(RStrip(last))
  {
    SplitAfterAppend(earlier, last, '\n');
  }

  /** A blank last line empties the features, whatever came before it. */
  lemma BlankLastLine(earlier: string, last: string)
    requires earlier == [] || earlier[|earlier| - 1] == '\n'
    requires last != [] && '\n' !in last[..|last| - 1]
    requires forall k :: 0 <= k < |last| ==> IsSpace(last[k])
    ensures Features(TextLines(earlier + last)) == []
  {
    LastLineWins(earlier, last);
    BlankLineHasNoFields(last);
  }

  /** An empty sidecar gives no features. */
  lemma EmptySidecar(fs: FileSystem, sidecar: string)
    requires sidecar in fs && fs[sidecar] == []
    ensures SidecarFeatures(fs, sidecar) == []
  {
  }

  /** A sidecar holding one line of space-separated values yields exactly those values. */
  lemma SingleLineSidecar(values: seq<string>)
    requires values != []
    requires forall k :: 0 <= k < |values| ==> values[k] != [] && NoSpace(values[k])
    ensures Features(TextLines(JoinWith(values, ' ') + "\n")) == values
  {
    var line := JoinWith(values, ' ');
    var text := line + "\n";
    assert TextLines(text) == [text] && RStrip(text) == line by {
      JoinWithEndsInValue(values);
      OneLineText(line);
      RStripLineEnd(line);
    }
    assert SplitWs(line) == values by {
      SplitWsJoin(values);
    }
  }

  /** A line without a newline, followed by one, is iterated as that single line. */
  lemma OneLineText(line: string)
    requires line != [] && '\n' !in line
    ensures TextLines(line + "\n") == [line + "\n"]
  {
    var text := line + "\n";
    assert text[..|text| - 1] == line;
    SplitAfterOnePiece(text, '\n');
  }

  /** Space-joined non-empty values end in a non-space character, and contain no newline. */
  lemma {:induction false} JoinWithEndsInValue(values: seq<string>)
    requires values != []
    requires forall k :: 0 <= k < |values| ==> values[k] != [] && NoSpace(values[k])
    ensures var line := JoinWith(values, ' ');
      line != [] && !IsSpace(line[|line| - 1]) && '\n' !in line
  {
    if |values| > 1 {
      JoinWithEndsInValue(values[1..]);
      var w, tail := values[0], JoinWith(values[1..], ' ');
      assert forall k :: 0 <= k < |w| ==> w[k] != '\n';
      assert forall k :: 0 <= k < |w| + 1 + |tail| ==> (w + [' '] + tail)[k] != '\n' by {
        forall k | 0 <= k < |w| + 1 + |tail| ensures (w + [' '] + tail)[k] != '\n' {
          if k > |w| { assert (w + [' '] + tail)[k] == tail[k - |w| - 1]; }
        }
      }
    } else {
      assert forall k :: 0 <= k < |values[0]| ==> values[0][k] != '\n';
    }
  }

  // ----- Collecting the recordings of every actor folder -----

  /** One actor folder: its name and its entries in listing order. */
  datatype ActorFolder = ActorFolder(name: string, entries: seq<string>)

  /** A recording found by the walk: its path and its file name. */
  datatype Entry = Entry(path: string, filename: string)

  /** `os.path.join(cwd, "audio", actor)`. */
  function ActorFolderPath(cwd: string, actor: string): string {
    Join(Join(cwd, AudioFolder), actor)
  }

  /**
   * The name ends in `.wav` after something other than a dot; by
   * `ExtensionWav`, exactly the names whose `splitext` extension is `.wav`.
   */
  predicate IsWav(name: string) {
    |name| > 4 && name[|name| - 4..] == ".wav" && exists k :: 0 <= k < |name| - 4 && name[k] != '.'
  }

  /** The `.wav` entries among `names`, in listing order, with their paths in `folderPath`. */
  function WavEntriesIn(folderPath: string, names: seq<string>): seq<Entry> {
    if names == [] then []
    else
      var name := names[|names| - 1];
      WavEntriesIn(folderPath, names[..|names| - 1])
        + (if IsWav(name) then [Entry(Join(folderPath, name), name)] else [])
  }

  /** The `.wav` entries of every actor folder, folder after folder. */
  function WavEntries(cwd: string, folders: seq<ActorFolder>): seq<Entry> {
    FlatMap(folders, FolderEntries(cwd))
  }

  /** The `.wav` entries of one actor folder, for the walk from `cwd`. */
  function FolderEntries(cwd: string): ActorFolder -> seq<Entry> {
    (folder: ActorFolder) => WavEntriesIn(ActorFolderPath(cwd, folder.name), folder.entries)
  }

  /** The concatenation of `f(x)` for every `x` of `xs`, in order. */
  function FlatMap<T, U>(xs: seq<T>, f: T -> seq<U>): seq<U> {
    if xs == [] then [] else FlatMap(xs[..|xs| - 1], f) + f(xs[|xs| - 1])
  }

  /** A single name is kept exactly when its extension is `.wav`. */
  lemma WavEntriesInSingle(folderPath: string, name: string)
    ensures WavEntriesIn(folderPath, [name]) == if IsWav(name) then [Entry(Join(folderPath, name), name)] else []
  {
    assert [name][..0] == [];
  }

  /** The filter keeps listing order: the entries of a concatenation are the entries of each part. */
  lemma {:induction false} WavEntriesInAppend(folderPath: string, a: seq<string>, b: seq<string>)
    ensures WavEntriesIn(folderPath, a + b) == WavEntriesIn(folderPath, a) + WavEntriesIn(folderPath, b)
    decreases |b|
  {
    if b == [] {
      assert a + b == a;
    } else {
      WavEntriesInAppend(folderPath, a, b[..|b| - 1]);
      assert (a + b)[..|a + b| - 1] == a + b[..|b| - 1];
      assert (a + b)[|a + b| - 1] == b[|b| - 1];
    }
  }

  /** Every kept entry is a `.wav` file of the folder, and no more entries are kept than listed. */
  lemma {:induction false} WavEntriesInAreWav(folderPath: string, names: seq<string>)
    ensures |WavEntriesIn(folderPath, names)| <= |names|
    ensures forall e :: e in WavEntriesIn(folderPath, names) ==> IsWav(e.filename) && e.path == Join(folderPath, e.filename)
  {
    if names != [] {
      WavEntriesInAreWav(folderPath, names[..|names| - 1]);
    }
  }

  /** Every listed `.wav` name is kept, as the entry of that name in the folder. */
  lemma WavEntriesInComplete(folderPath: string, names: seq<string>, k: nat)
    requires k < |names| && IsWav(names[k])
    ensures Entry(Join(folderPath, names[k]), names[k]) in WavEntriesIn(folderPath, names)
  {
    var before := WavEntriesIn(folderPath, names[..k]);
    var walked := WavEntriesIn(folderPath, names[..k + 1]);
    var all := WavEntriesIn(folderPath, names);
    WalkedOneMore(folderPath, names, k);
    WalkedWithin(folderPath, names, k + 1);
    WavEntriesInSingle(folderPath, names[k]);
    assert walked[|before|] == Entry(Join(folderPath, names[k]), names[k]);
    assert all[|before|] == walked[|before|];
  }

  /** The entries of a concatenation of folder listings are those of each part, in order. */
  lemma WavEntriesAppend(cwd: string, a: seq<ActorFolder>, b: seq<ActorFolder>)
    ensures WavEntries(cwd, a + b) == WavEntries(cwd, a) + WavEntries(cwd, b)
  {
    FlatMapAppend(a, b, FolderEntries(cwd));
  }

  /** The walk over a single actor folder keeps that folder's `.wav` entries. */
  lemma WavEntriesOfFolder(cwd: string, folder: ActorFolder)
    ensures WavEntries(cwd, [folder]) == WavEntriesIn(ActorFolderPath(cwd, folder.name), folder.entries)
  {
    assert FlatMap([folder], FolderEntries(cwd)) == FlatMap([folder][..0], FolderEntries(cwd)) + FolderEntries(cwd)([folder][0]);
    assert [folder][..0] == [];
  }

  /** Every `.wav` name listed in any actor folder is kept by the walk, with its path in that folder. */
  lemma WavEntriesComplete(cwd: string, folders: seq<ActorFolder>, i: nat, k: nat)
    requires i < |folders| && k < |folders[i].entries| && IsWav(folders[i].entries[k])
    ensures var name := folders[i].entries[k];
      Entry(Join(ActorFolderPath(cwd, folders[i].name), name), name) in WavEntries(cwd, folders)
  {
    var folder := folders[i];
    var before, after := folders[..i], folders[i + 1..];
    WavEntriesInComplete(ActorFolderPath(cwd, folder.name), folder.entries, k);
    WavEntriesOfFolder(cwd, folder);
    WavEntriesAppend(cwd, [folder], after);
    WavEntriesAppend(cwd, before, [folder] + after);
    SplitAroundIndex(folders, i);
  }

  /** A sequence is the part before position `i`, its element there, and the part after. */
  lemma SplitAroundIndex<T>(xs: seq<T>, i: nat)
    requires i < |xs|
    ensures xs == xs[..i] + ([xs[i]] + xs[i + 1..])
  {
  }

  /** `FlatMap` distributes over concatenation. */
  lemma {:induction false} FlatMapAppend<T, U>(a: seq<T>, b: seq<T>, f: T -> seq<U>)
    ensures FlatMap(a + b, f) == FlatMap(a, f) + FlatMap(b, f)
    decreases |b|
  {
    if b == [] {
      assert a + b == a;
    } else {
      var ab, init := a + b, b[..|b| - 1];
      assert ab[..|ab| - 1] == a + init;
      assert ab[|ab| - 1] == b[|b| - 1];
      FlatMapAppend(a, init, f);
    }
  }

  /** Every entry the walk keeps is a `.wav` file. */
  lemma {:induction false} WavEntriesAreWav(cwd: string, folders: seq<ActorFolder>)
    ensures forall e :: e in WavEntries(cwd, folders) ==> IsWav(e.filename)
  {
    if folders != [] {
      var folder := folders[|folders| - 1];
      WavEntriesAreWav(cwd, folders[..|folders| - 1]);
      WavEntriesInAreWav(ActorFolderPath(cwd, folder.name), folder.entries);
      assert WavEntries(cwd, folders) == WavEntries(cwd, folders[..|folders| - 1]) + FolderEntries(cwd)(folder);
    }
  }

  /** How each entry becomes a record: the `AudioFile` of its path and name. */
  function EntryDecoder(fs: FileSystem): Entry -> Result<AudioFile, DecodeError> {
    (e: Entry) => AudioFileOf(e.path, e.filename, fs)
  }

  /**
   * `decode` constructs the `AudioFile` of an entry. The trigger lets the
   * solver use this only where a record is actually constructed.
   */
  ghost predicate DecodesAs(decode: Entry -> Result<AudioFile, DecodeError>, fs: FileSystem) {
    forall path, name {:trigger AudioFileOf(path, name, fs)} :: decode(Entry(path, name)) == AudioFileOf(path, name, fs)
  }

  /** The entry decoder constructs `AudioFile` records. */
  lemma EntryDecoderDecodes(fs: FileSystem)
    ensures DecodesAs(EntryDecoder(fs), fs)
  {
  }

  /** The records of all entries in order, or the error of the first entry that fails. */
  function DecodeAll(entries: seq<Entry>, decode: Entry -> Result<AudioFile, DecodeError>): Result<seq<AudioFile>, DecodeError> {
    if entries == [] then Success([])
    else
      var files :- DecodeAll(entries[..|entries| - 1], decode);
      var file :- decode(entries[|entries| - 1]);
      Success(files + [file])
  }

  /** Decoding a single entry gives its record, or its error. */
  lemma DecodeOne(e: Entry, decode: Entry -> Result<AudioFile, DecodeError>)
    ensures DecodeAll([e], decode) == if decode(e).Success? then Success([decode(e).value]) else Failure(decode(e).error)
  {
    assert [e][..0] == [];
    var files: seq<AudioFile> := [];
    assert DecodeAll([e][..0], decode) == Success(files);
    if decode(e).Success? {
      assert files + [decode(e).value] == [decode(e).value];
    }
  }

  /** Decoding a concatenation decodes the first part, then the second, and fails with the second's error. */
  lemma {:induction false} DecodeAllAppend(a: seq<Entry>, b: seq<Entry>, decode: Entry -> Result<AudioFile, DecodeError>)
    requires DecodeAll(a, decode).Success?
    ensures DecodeAll(b, decode).Success? ==>
      DecodeAll(a + b, decode) == Success(DecodeAll(a, decode).value + DecodeAll(b, decode).value)
    ensures DecodeAll(b, decode).Failure? ==> DecodeAll(a + b, decode) == Failure(DecodeAll(b, decode).error)
    decreases |b|
  {
    if b == [] {
      assert a + b == a;
      assert DecodeAll(b, decode) == Success([]);
      assert DecodeAll(a, decode).value + [] == DecodeAll(a, decode).value;
    } else {
      var init, last := b[..|b| - 1], b[|b| - 1];
      assert (a + b)[..|a + b| - 1] == a + init;
      assert (a + b)[|a + b| - 1] == last;
      DecodeAllAppend(a, init, decode);
      if DecodeAll(init, decode).Success? && decode(last).Success? {
        var fa, fi, f := DecodeAll(a, decode).value, DecodeAll(init, decode).value, decode(last).value;
        assert fa + fi + [f] == fa + (fi + [f]);
      }
    }
  }

  /**
   * Decoding all entries succeeds exactly when every entry decodes; then there
   * is one record per entry, in order. Otherwise the error is that of the
   * first entry that fails.
   */
  lemma {:induction false} DecodeAllSpec(entries: seq<Entry>, decode: Entry -> Result<AudioFile, DecodeError>)
    ensures DecodeAll(entries, decode).Success? <==>
      forall k :: 0 <= k < |entries| ==> decode(entries[k]).Success?
    ensures DecodeAll(entries, decode).Success? ==>
      var files := DecodeAll(entries, decode).value;
      |files| == |entries| && forall k :: 0 <= k < |entries| ==> files[k] == decode(entries[k]).value
    ensures DecodeAll(entries, decode).Failure? ==>
      exists k :: 0 <= k < |entries| && decode(entries[k]) == Failure(DecodeAll(entries, decode).error)
        && forall j :: 0 <= j < k ==> decode(entries[j]).Success?
  {
    if entries != [] {
      var n := |entries| - 1;
      var init := entries[..n];
      DecodeAllSpec(init, decode);
      assert forall k :: 0 <= k < n ==> init[k] == entries[k];
    }
  }

  /** Once a prefix fails, the whole sequence fails with the same error. */
  lemma {:induction false} DecodeAllPrefixFailure(prefix: seq<Entry>, entries: seq<Entry>, decode: Entry -> Result<AudioFile, DecodeError>)
    requires prefix <= entries
    requires DecodeAll(prefix, decode).Failure?
    ensures DecodeAll(entries, decode) == DecodeAll(prefix, decode)
    decreases |entries|
  {
    if |entries| == |prefix| {
      assert entries == prefix;
    } else {
      var init := entries[..|entries| - 1];
      assert prefix <= init;
      DecodeAllPrefixFailure(prefix, init, decode);
    }
  }

  /** The entries walked so far are a prefix of all entries. */
  lemma WalkedPrefix(cwd: string, folders: seq<ActorFolder>, i: nat, j: nat)
    requires i < |folders| && j <= |folders[i].entries|
    ensures var actorFolderPath := ActorFolderPath(cwd, folders[i].name);
      WavEntries(cwd, folders[..i]) + WavEntriesIn(actorFolderPath, folders[i].entries[..j]) <= WavEntries(cwd, folders)
  {
    var folder := folders[i];
    var actorFolderPath := ActorFolderPath(cwd, folder.name);
    assert folders == folders[..i + 1] + folders[i + 1..];
    WavEntriesAppend(cwd, folders[..i + 1], folders[i + 1..]);
    assert folders[..i + 1][..i] == folders[..i];
    assert WavEntries(cwd, folders[..i + 1]) == WavEntries(cwd, folders[..i]) + FolderEntries(cwd)(folder);
    assert folder.entries == folder.entries[..j] + folder.entries[j..];
    WavEntriesInAppend(actorFolderPath, folder.entries[..j], folder.entries[j..]);
  }

  /**
   * One step of the walk over a folder's names: decoding the entries up to
   * name `j` extends the records so far by those of name `j`, and a failure
   * there is the failure of the whole folder.
   */
  lemma WalkStep(folderPath: string, names: seq<string>, j: nat, files: seq<AudioFile>, decode: Entry -> Result<AudioFile, DecodeError>)
    requires j < |names|
    requires DecodeAll(WavEntriesIn(folderPath, names[..j]), decode) == Success(files)
    ensures var d := DecodeAll(WavEntriesIn(folderPath, [names[j]]), decode);
      && (d.Success? ==> DecodeAll(WavEntriesIn(folderPath, names[..j + 1]), decode) == Success(files + d.value))
      && (d.Failure? ==> DecodeAll(WavEntriesIn(folderPath, names), decode) == Failure(d.error))
  {
    WalkedOneMore(folderPath, names, j);
    WalkedWithin(folderPath, names, j + 1);
    DecodeStep(WavEntriesIn(folderPath, names[..j]), WavEntriesIn(folderPath, [names[j]]),
      WavEntriesIn(folderPath, names), files, decode);
  }

  /** Walking one more name of a folder adds that name's entry, if any. */
  lemma WalkedOneMore(folderPath: string, names: seq<string>, j: nat)
    requires j < |names|
    ensures WavEntriesIn(folderPath, names[..j + 1])
      == WavEntriesIn(folderPath, names[..j]) + WavEntriesIn(folderPath, [names[j]])
  {
    assert names[..j + 1] == names[..j] + [names[j]];
    WavEntriesInAppend(folderPath, names[..j], [names[j]]);
  }

  /** The entries of the names walked so far are a prefix of the folder's entries. */
  lemma WalkedWithin(folderPath: string, names: seq<string>, j: nat)
    requires j <= |names|
    ensures WavEntriesIn(folderPath, names[..j]) <= WavEntriesIn(folderPath, names)
  {
    assert names == names[..j] + names[j..];
    WavEntriesInAppend(folderPath, names[..j], names[j..]);
  }

  /**
   * Decoding one more group of entries: success extends the records, and a
   * failure is the failure of everything the walk goes on to.
   */
  lemma DecodeStep(before: seq<Entry>, step: seq<Entry>, all: seq<Entry>, files: seq<AudioFile>, decode: Entry -> Result<AudioFile, DecodeError>)
    requires before + step <= all
    requires DecodeAll(before, decode) == Success(files)
    ensures var d := DecodeAll(step, decode);
      && (d.Success? ==> DecodeAll(before + step, decode) == Success(files + d.value))
      && (d.Failure? ==> DecodeAll(all, decode) == Failure(d.error))
  {
    DecodeAllAppend(before, step, decode);
    if DecodeAll(step, decode).Failure? {
      DecodeAllPrefixFailure(before + step, all, decode);
    }
  }

  /** What the parser collects: the records of every `.wav` entry, or the first error. */
  function Collected(cwd: string, folders: seq<ActorFolder>, fs: FileSystem): Result<seq<AudioFile>, DecodeError> {
    DecodeAll(WavEntries(cwd, folders), EntryDecoder(fs))
  }

  /**
   * On success, the parser holds exactly one record per `.wav` entry, in
   * folder and listing order: record `k` is the `AudioFile` of entry `k`, and
   * its name is a `.wav` name.
   */
  lemma CollectedSpec(cwd: string, folders: seq<ActorFolder>, fs: FileSystem)
    ensures var entries := WavEntries(cwd, folders);
      Collected(cwd, folders, fs).Success? ==>
        var files := Collected(cwd, folders, fs).value;
        && |files| == |entries|
        && forall k :: 0 <= k < |files| ==>
             && Success(files[k]) == AudioFileOf(entries[k].path, entries[k].filename, fs)
             && IsWav(files[k].fullFilename)
  {
    var entries := WavEntries(cwd, folders);
    DecodeAllSpec(entries, EntryDecoder(fs));
    WavEntriesAreWav(cwd, folders);
    if Collected(cwd, folders, fs).Success? {
      var files := Collected(cwd, folders, fs).value;
      forall k | 0 <= k < |files|
        ensures Success(files[k]) == AudioFileOf(entries[k].path, entries[k].filename, fs)
        ensures IsWav(files[k].fullFilename)
      {
        assert entries[k] in entries;
        AudioFileOfSpec(entries[k].path, entries[k].filename, fs);
      }
    }
  }

  /** Holds all of the recordings. */
  class AudioParser {
    var audioFiles: seq<AudioFile>

    constructor Empty()
      ensures audioFiles == []
    {
      audioFiles := [];
    }

    /**
     * Walks every actor folder in listing order, collecting the recordings of
     * each. The first recording that fails to decode aborts the walk.
     */
    static method Create(cwd: string, folders: seq<ActorFolder>, fs: FileSystem) returns (r: Result<AudioParser, DecodeError>)
      ensures r.Success? <==> Collected(cwd, folders, fs).Success?
      ensures r.Success? ==> fresh(r.value) && r.value.audioFiles == Collected(cwd, folders, fs).value
      ensures r.Failure? ==> r.error == Collected(cwd, folders, fs).error
    {
      var parser := new AudioParser.Empty();
      ghost var decode := EntryDecoder(fs);
      EntryDecoderDecodes(fs);
      for i := 0 to |folders|
        invariant DecodeAll(WavEntries(cwd, folders[..i]), decode) == Success(parser.audioFiles)
      {
        var actorFolder := folders[i];
        var actorFolderPath := ActorFolderPath(cwd, actorFolder.name);
        ghost var done := WavEntries(cwd, folders[..i]);
        ghost var part := WavEntriesIn(actorFolderPath, actorFolder.entries);
        var error := parser.CollectFolder(actorFolderPath, actorFolder.entries, fs, decode);
        DecodeAllAppend(done, part, decode);
        if error.Some? {
          assert Collected(cwd, folders, fs) == Failure(error.value) by {
            WalkedPrefix(cwd, folders, i, |actorFolder.entries|);
            assert actorFolder.entries[..|actorFolder.entries|] == actorFolder.entries;
            DecodeAllPrefixFailure(done + part, WavEntries(cwd, folders), decode);
          }
          return Failure(error.value);
        }
        assert WavEntries(cwd, folders[..i + 1]) == done + part by {
          assert folders[..i + 1][..i] == folders[..i];
        }
      }
      assert folders[..|folders|] == folders;
      return Success(parser);
    }

    /**
     * Goes through the entries of one actor folder in listing order, adding
     * the record of each `.wav` file. Stops with the error of the first
     * recording that fails to decode; `audioFiles` is then left unspecified,
     * since `Create` drops the parser, as the exception drops the half-built
     * object.
     *
     * The ghost parameter `decode` exists only for the proof: `DecodesAs`
     * makes it agree with `AudioFileOf` on every entry (`Create` passes
     * `EntryDecoder(fs)`), so "decoded with `decode`" in the contract means
     * "constructed as an `AudioFile`".
     */
    method CollectFolder(actorFolderPath: string, names: seq<string>, fs: FileSystem, ghost decode: Entry -> Result<AudioFile, DecodeError>)
      returns (error: Option<DecodeError>)
      requires DecodesAs(decode, fs)
      modifies this
      ensures var d := DecodeAll(WavEntriesIn(actorFolderPath, names), decode);
        && (error.None? <==> d.Success?)
        && (d.Success? ==> audioFiles == old(audioFiles) + d.value)
        && (d.Failure? ==> error == Some(d.error))
    {
      ghost var start := audioFiles;
      ghost var files: seq<AudioFile> := [];
      error := None;
      assert names[..0] == [];
      for j := 0 to |names|
        invariant error == None
        invariant DecodeAll(WavEntriesIn(actorFolderPath, names[..j]), decode) == Success(files)
        invariant audioFiles == start + files
      {
        var audioFilename := names[j];
        error := AddRecording(actorFolderPath, audioFilename, fs, decode);
        ghost var d := DecodeAll(WavEntriesIn(actorFolderPath, [audioFilename]), decode);
        if error.Some? {
          assert DecodeAll(WavEntriesIn(actorFolderPath, names), decode) == Failure(error.value) by {
            WalkStep(actorFolderPath, names, j, files, decode);
          }
          return;
        }
        assert DecodeAll(WavEntriesIn(actorFolderPath, names[..j + 1]), decode) == Success(files + d.value) by {
          WalkStep(actorFolderPath, names, j, files, decode);
        }
        assert audioFiles == start + (files + d.value) by {
          assert audioFiles == start + files + d.value;
        }
        files := files + d.value;
      }
      assert names[..|names|] == names;
    }

    /**
     * The body of the walk for one entry of an actor folder: skips anything
     * but a `.wav` file; otherwise constructs its record and appends it, or
     * stops with the error of a recording that fails to decode. On that error
     * `audioFiles` is left unspecified: `Create` drops the parser, as the
     * exception drops the half-built object.
     *
     * The ghost parameter `decode` exists only for the proof: `DecodesAs`
     * makes it agree with `AudioFileOf` on every entry (`Create` passes
     * `EntryDecoder(fs)`), so "decoded with `decode`" in the contract means
     * "constructed as an `AudioFile`".
     */
    method AddRecording(actorFolderPath: string, audioFilename: string, fs: FileSystem, ghost decode: Entry -> Result<AudioFile, DecodeError>)
      returns (error: Option<DecodeError>)
      requires DecodesAs(decode, fs)
      modifies this
      ensures var d := DecodeAll(WavEntriesIn(actorFolderPath, [audioFilename]), decode);
        && (error.None? <==> d.Success?)
        && (d.Success? ==> audioFiles == old(audioFiles) + d.value)
        && (d.Failure? ==> error == Some(d.error))
    {
      WavEntriesInSingle(actorFolderPath, audioFilename);
      ExtensionWav(audioFilename);
      if Extension(audioFilename) != ".wav" {
        return None;
      }
      var audioFilepath := Join(actorFolderPath, audioFilename);
      var audioFile := ReadAudioFile(audioFilepath, audioFilename, fs);
      assert DecodeAll([Entry(audioFilepath, audioFilename)], decode) ==
        if audioFile.Success? then Success([audioFile.value]) else Failure(audioFile.error)
      by {
        var entry := Entry(audioFilepath, audioFilename);
        DecodeOne(entry, decode);
        assert decode(entry) == audioFile;
      }
      if audioFile.Failure? {
        return Some(audioFile.error);
      }
      audioFiles := audioFiles + [audioFile.value];
      return None;
    }
  }
}

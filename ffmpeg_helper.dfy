/** The FFmpeg helper object: command strings for MobileFFmpeg, built from
    string templates. `FFmpeg.execute` and `Config.getVersion` belong to the
    native library and are parameters here. */
module FFmpegHelper {
  import opened Strings
  import opened Wrappers

  /** A path inside double quotes, as the templates write `"$path"`. Nothing is escaped. */
  function Quoted(path: string): string {
    "\"" + path + "\""
  }

  /** The shape every command shares: `-i "<input>" <options> "<output>"`. */
  function Command(inputPath: string, options: string, outputPath: string): string {
    "-i " + Quoted(inputPath) + " " + options + " " + Quoted(outputPath)
  }

  const Mp3ConversionOptions: string := "-codec:a libmp3lame -qscale:a 2"

  /** The command `convertToMp3` runs. */
  function ConvertToMp3Command(inputPath: string, outputPath: string): string {
    Command(inputPath, Mp3ConversionOptions, outputPath)
  }

  /** The `when` in `extractAudio`: the codec options for a target format. */
  function AudioCodecOptions(format: string): (options: string)
    ensures options in ["-q:a 0 -map a", "-c:a flac", "-c:a pcm_s16le", "-c:a copy"]
  {
    match format
    case "mp3" => "-q:a 0 -map a"
    case "flac" => "-c:a flac"
    case "wav" => "-c:a pcm_s16le"
    case _ => "-c:a copy"
  }

  /** The command `extractAudio` runs; the format defaults to "mp3". */
  function ExtractAudioCommand(inputPath: string, outputPath: string, format: string := "mp3"): string {
    Command(inputPath, AudioCodecOptions(format), outputPath)
  }

  /** The command `getMediaInfo` runs: it has no output path. */
  function MediaInfoCommand(filePath: string): string {
    "-i " + Quoted(filePath) + " -hide_banner"
  }

  /** `convertToMp3`: the exit code `FFmpeg.execute` returns for its command. */
  function ConvertToMp3(inputPath: string, outputPath: string, execute: string -> int): int {
    execute(ConvertToMp3Command(inputPath, outputPath))
  }

  /** `extractAudio`: the exit code `FFmpeg.execute` returns for its command. */
  function ExtractAudio(inputPath: string, outputPath: string, execute: string -> int, format: string := "mp3"): int {
    execute(ExtractAudioCommand(inputPath, outputPath, format))
  }

  const MediaInfoPrefix: string := "Media info execution completed with code: "

  /** `getMediaInfo`: the fixed message followed by the exit code, whatever it is. */
  function GetMediaInfo(filePath: string, execute: string -> int): (message: string)
    ensures StartsWith(message, MediaInfoPrefix)
  {
    MediaInfoPrefix + IntToString(execute(MediaInfoCommand(filePath)))
  }

  /** What `Config.getVersion()` does: returns a version text or throws. */
  datatype VersionOutcome = Version(text: string) | Throws

  /** `isFFmpegAvailable`: false when the lookup throws, otherwise whether the
      version text is not blank, that is, whether it is non-empty once trimmed. */
  function IsFFmpegAvailable(version: VersionOutcome): (available: bool)
    ensures available <==> version.Version? && KtTrim(version.text) != ""
  {
    TrimEmptyIff(if version.Version? then version.text else "", KtIsWhitespace);
    match version
    case Throws => false
    case Version(text) => !IsBlank(text)
  }

  // ---------------------------------------------------------------------
  // Reading a command back
  // ---------------------------------------------------------------------

  /** The three parts of a command. */
  datatype Invocation = Invocation(input: string, options: string, output: string)

  /** Splits a command at its double quotes into input, options and output;
      None when it does not have the shape `-i "<input>" <options> "<output>"`. */
  function ParseInvocation(command: string): Option<Invocation> {
    var parts := SplitOn(command, '"');
    if |parts| == 5 && parts[0] == "-i " && parts[4] == "" &&
       |parts[2]| >= 2 && parts[2][0] == ' ' && parts[2][|parts[2]| - 1] == ' '
    then Some(Invocation(parts[1], parts[2][1..|parts[2]| - 1], parts[3]))
    else None
  }

  /** Four delimiter-free pieces, each closed by the delimiter, split back into
      those pieces and a final empty one. */
  lemma SplitFourClosed(a: string, b: string, c: string, d: string, q: char)
    requires q !in a && q !in b && q !in c && q !in d
    ensures SplitOn(a + [q] + (b + [q] + (c + [q] + (d + [q] + ""))), q) == [a, b, c, d, ""]
  {
    SplitAtFirst(a, q, b + [q] + (c + [q] + (d + [q] + "")));
    SplitAtFirst(b, q, c + [q] + (d + [q] + ""));
    SplitAtFirst(c, q, d + [q] + "");
    SplitAtFirst(d, q, "");
    assert SplitOn("", q) == [""];
  }

  /** Quote-free paths and options come back out of the command unchanged and
      in their places: the input first, then the options, then the output. */
  lemma ParseInvocationRoundTrip(inputPath: string, options: string, outputPath: string)
    requires '"' !in inputPath && '"' !in options && '"' !in outputPath
    ensures ParseInvocation(Command(inputPath, options, outputPath)) == Some(Invocation(inputPath, options, outputPath))
  {
    var q := '"';
    var middle := " " + options + " ";
    assert q !in middle;
    assert q !in "-i ";
    assert Command(inputPath, options, outputPath) ==
      "-i " + [q] + (inputPath + [q] + (middle + [q] + (outputPath + [q] + "")));
    SplitFourClosed("-i ", inputPath, middle, outputPath, q);
    assert middle[1..|middle| - 1] == options;
  }

  /** So a command whose parts have no quotes determines those parts. */
  lemma CommandInjective(a: Invocation, b: Invocation)
    requires '"' !in a.input && '"' !in a.options && '"' !in a.output
    requires '"' !in b.input && '"' !in b.options && '"' !in b.output
    requires Command(a.input, a.options, a.output) == Command(b.input, b.options, b.output)
    ensures a == b
  {
    ParseInvocationRoundTrip(a.input, a.options, a.output);
    ParseInvocationRoundTrip(b.input, b.options, b.output);
  }

  /** Moving `" <options> "<m>` from the front of the output path to the end
      of the input path leaves the command as it was. */
  lemma QuoteShift(a: string, options: string, m: string, c: string)
    ensures var glue := "\" " + options + " \"";
      Command(a, options, m + glue + c) == Command(a + glue + m, options, c)
  {
    var glue := "\" " + options + " \"";
    var both := "-i \"" + a + glue + m + glue + c + "\"";
    assert Command(a, options, m + glue + c) == both;
    assert Command(a + glue + m, options, c) == both;
  }

  /** Because nothing is escaped, a quote inside a path lets two different
      conversions produce the same command. */
  lemma UnescapedQuotesCollide(a: string, m: string, c: string)
    ensures var glue := "\" " + Mp3ConversionOptions + " \"";
      a + glue + m != a &&
      ConvertToMp3Command(a, m + glue + c) == ConvertToMp3Command(a + glue + m, c)
  {
    QuoteShift(a, Mp3ConversionOptions, m, c);
  }

  /** Extraction for the same paths gives the same command for two formats
      exactly when they are the same format or both fall through to `-c:a copy`. */
  lemma ExtractAudioDistinguishesFormats(inputPath: string, outputPath: string, f: string, g: string)
    ensures ExtractAudioCommand(inputPath, outputPath, f) == ExtractAudioCommand(inputPath, outputPath, g) <==>
      f == g || (f !in ["mp3", "flac", "wav"] && g !in ["mp3", "flac", "wav"])
  {
    var o, p := AudioCodecOptions(f), AudioCodecOptions(g);
    var cf, cg := ExtractAudioCommand(inputPath, outputPath, f), ExtractAudioCommand(inputPath, outputPath, g);
    if cf == cg {
      var lo := |"-i " + Quoted(inputPath) + " "|;
      var tail := " " + Quoted(outputPath);
      assert |o| == |p|;
      assert cf[lo..lo + |o|] == o;
      assert cg[lo..lo + |p|] == p;
    }
  }

  /** The default extraction is the MP3 extraction: `-q:a 0 -map a`, paths verbatim. */
  lemma ExtractAudioDefaultsToMp3(inputPath: string, outputPath: string)
    requires '"' !in inputPath && '"' !in outputPath
    ensures ParseInvocation(ExtractAudioCommand(inputPath, outputPath)) ==
      Some(Invocation(inputPath, "-q:a 0 -map a", outputPath))
  {
    ParseInvocationRoundTrip(inputPath, "-q:a 0 -map a", outputPath);
  }

  /** Read back, an extraction carries the codec its format selects: FLAC,
      16-bit PCM for WAV, and a stream copy for every format the `when` does
      not name, with the paths verbatim. */
  lemma ExtractAudioInvocation(inputPath: string, outputPath: string, format: string)
    requires '"' !in inputPath && '"' !in outputPath
    ensures var r := ParseInvocation(ExtractAudioCommand(inputPath, outputPath, format));
      r.Some? && r.value.input == inputPath && r.value.output == outputPath &&
      (format == "flac" ==> r.value.options == "-c:a flac") &&
      (format == "wav" ==> r.value.options == "-c:a pcm_s16le") &&
      (format !in ["mp3", "flac", "wav"] ==> r.value.options == "-c:a copy")
  {
    ParseInvocationRoundTrip(inputPath, AudioCodecOptions(format), outputPath);
  }

  /** A conversion to MP3 always asks for libmp3lame at quality 2, paths verbatim. */
  lemma ConvertToMp3Invocation(inputPath: string, outputPath: string)
    requires '"' !in inputPath && '"' !in outputPath
    ensures ParseInvocation(ConvertToMp3Command(inputPath, outputPath)) ==
      Some(Invocation(inputPath, "-codec:a libmp3lame -qscale:a 2", outputPath))
  {
    ParseInvocationRoundTrip(inputPath, Mp3ConversionOptions, outputPath);
  }

  /** `convertToMp3` returns what the executor returns for a command that
      reads back as the input path, the MP3 options and the output path. */
  lemma ConvertToMp3Runs(inputPath: string, outputPath: string, execute: string -> int)
    requires '"' !in inputPath && '"' !in outputPath
    ensures exists command ::
      ParseInvocation(command) == Some(Invocation(inputPath, Mp3ConversionOptions, outputPath)) &&
      ConvertToMp3(inputPath, outputPath, execute) == execute(command)
  {
    ConvertToMp3Invocation(inputPath, outputPath);
    var command := ConvertToMp3Command(inputPath, outputPath);
    assert ConvertToMp3(inputPath, outputPath, execute) == execute(command);
  }

  /** `extractAudio` returns what the executor returns for a command that reads
      back as the input path, the options its format selects and the output
      path; leaving the format out is asking for "mp3". */
  lemma ExtractAudioRuns(inputPath: string, outputPath: string, execute: string -> int, format: string)
    requires '"' !in inputPath && '"' !in outputPath
    ensures exists command ::
      ParseInvocation(command) == Some(Invocation(inputPath, AudioCodecOptions(format), outputPath)) &&
      ExtractAudio(inputPath, outputPath, execute, format) == execute(command)
    ensures ExtractAudio(inputPath, outputPath, execute) == ExtractAudio(inputPath, outputPath, execute, "mp3")
  {
    ParseInvocationRoundTrip(inputPath, AudioCodecOptions(format), outputPath);
    var command := ExtractAudioCommand(inputPath, outputPath, format);
    assert ExtractAudio(inputPath, outputPath, execute, format) == execute(command);
  }

  /** The message of `getMediaInfo` tells the exit code exactly: two runs give
      the same message if and only if they returned the same code. */
  lemma MediaInfoReportsCode(filePath: string, e1: string -> int, e2: string -> int)
    ensures GetMediaInfo(filePath, e1) == GetMediaInfo(filePath, e2) <==>
      e1(MediaInfoCommand(filePath)) == e2(MediaInfoCommand(filePath))
  {
    var c := MediaInfoCommand(filePath);
    var m1, m2 := GetMediaInfo(filePath, e1), GetMediaInfo(filePath, e2);
    if m1 == m2 {
      assert m1[|MediaInfoPrefix|..] == IntToString(e1(c));
      assert m2[|MediaInfoPrefix|..] == IntToString(e2(c));
      IntToStringInjective(e1(c), e2(c));
    }
  }
}

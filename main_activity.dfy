/** The Kotlin activity: the single-job gate, URL and argument handling, the
    spotdl command it builds, and the relocator that moves finished audio files
    from the temporary directory into the output directory. Directories are
    modelled by the names they hold. */
module MainActivity {
  import opened Strings
  import opened Wrappers
  import SpotdlWrapper

  // ---------------------------------------------------------------------
  // File names
  // ---------------------------------------------------------------------

  /** The extension test of `moveFilesToOutputDirectory`: case-sensitive, so
      it holds exactly when the name's `extension` is one of four lower-case
      strings. */
  predicate IsAudioName(name: string): (b: bool)
    ensures b <==> Extension(name) in AudioExtensions
  {
    AudioSuffixByExtension(name);
    EndsWith(name, ".mp3") || EndsWith(name, ".flac") || EndsWith(name, ".wav") || EndsWith(name, ".m4a")
  }

  const AudioExtensions: seq<string> := ["mp3", "flac", "wav", "m4a"]

  lemma EndsWithConcat(a: string, b: string)
    ensures EndsWith(a + b, b)
  {
    assert (a + b)[|a|..] == b;
  }

  lemma AudioSuffixByExtension(name: string)
    ensures (EndsWith(name, ".mp3") || EndsWith(name, ".flac") || EndsWith(name, ".wav") || EndsWith(name, ".m4a"))
      <==> Extension(name) in AudioExtensions
  {
    if EndsWith(name, ".mp3") || EndsWith(name, ".flac") || EndsWith(name, ".wav") || EndsWith(name, ".m4a") {
      AudioSuffixGivesExtension(name);
    }
    if Extension(name) in AudioExtensions {
      ExtensionSuffix(name);
      AudioSuffixes();
    }
  }

  lemma AudioSuffixGivesExtension(name: string)
    requires EndsWith(name, ".mp3") || EndsWith(name, ".flac") || EndsWith(name, ".wav") || EndsWith(name, ".m4a")
    ensures Extension(name) in AudioExtensions
  {
    AudioSuffixes();
    if EndsWith(name, ".mp3") {
      AudioExtension(name, "mp3");
    } else if EndsWith(name, ".flac") {
      AudioExtension(name, "flac");
    } else if EndsWith(name, ".wav") {
      AudioExtension(name, "wav");
    } else {
      AudioExtension(name, "m4a");
    }
  }

  /** A non-empty extension is preceded by a dot at the end of the name. */
  lemma ExtensionSuffix(name: string)
    requires Extension(name) != ""
    ensures EndsWith(name, "." + Extension(name))
  {
    NameSplitsAtLastDot(name);
    var base, e := NameWithoutExtension(name), Extension(name);
    assert name == base + ("." + e);
    EndsWithConcat(base, "." + e);
  }

  /** Kotlin's `File.nameWithoutExtension`: the name before its last dot, or
      the whole name when it has none. */
  function NameWithoutExtension(name: string): string {
    var k := LastIndexOf(name, '.');
    if k < 0 then name else name[..k]
  }

  /** Kotlin's `File.extension`: the name after its last dot, or "" when it has none. */
  function Extension(name: string): string {
    var k := LastIndexOf(name, '.');
    if k < 0 then "" else name[k + 1..]
  }

  /** A name with a dot is its base, the last dot and its extension; a name
      without one is all base. */
  lemma NameSplitsAtLastDot(name: string)
    ensures '.' in name ==> name == NameWithoutExtension(name) + "." + Extension(name) && '.' !in Extension(name)
    ensures '.' !in name ==> NameWithoutExtension(name) == name && Extension(name) == ""
  {
    var k := LastIndexOf(name, '.');
    if '.' in name {
      SplitAtDot(name, k);
    }
  }

  lemma SplitAtDot(name: string, k: int)
    requires 0 <= k < |name| && name[k] == '.'
    requires forall j :: k < j < |name| ==> name[j] != '.'
    ensures name == name[..k] + "." + name[k + 1..] && '.' !in name[k + 1..]
  {
    var ext := name[k + 1..];
    assert name == name[..k] + [name[k]] + ext;
    forall j | 0 <= j < |ext| ensures ext[j] != '.' {
      assert ext[j] == name[k + 1 + j];
    }
  }

  /** A name ending in a dot and a dot-free `e` has `e` as its extension. */
  lemma ExtensionOfSuffix(name: string, e: string)
    requires '.' !in e && EndsWith(name, "." + e)
    ensures Extension(name) == e
  {
    var d := |name| - |e| - 1;
    var suffix := name[d..];
    assert suffix == "." + e;
    assert name[d] == suffix[0] == '.';
    forall j | d < j < |name| ensures name[j] != '.' {
      assert name[j] == suffix[j - d] == e[j - d - 1];
    }
    assert name[d + 1..] == suffix[1..];
  }

  /** The allowed audio extensions contain no dot, so a name ending in one has it as its extension. */
  lemma AudioExtension(name: string, e: string)
    requires e in ["mp3", "flac", "wav", "m4a"] && EndsWith(name, "." + e)
    ensures Extension(name) == e
  {
    assert '.' !in e;
    ExtensionOfSuffix(name, e);
  }

  /** The name `generateUniqueFileName` tries for `counter == k`: "base (k).ext". */
  function Candidate(base: string, ext: string, k: nat): string {
    base + " (" + NatToString(k) + ")." + ext
  }

  /** Different counters give different candidate names. */
  lemma CandidateInjective(base: string, ext: string, j: nat, k: nat)
    requires Candidate(base, ext, j) == Candidate(base, ext, k)
    ensures j == k
  {
    var sj, sk := NatToString(j), NatToString(k);
    var cj, ck := Candidate(base, ext, j), Candidate(base, ext, k);
    assert |sj| == |sk|;
    var lo := |base| + 2;
    assert cj[lo..lo + |sj|] == sj;
    assert ck[lo..lo + |sk|] == sk;
    NatToStringInjective(j, k);
  }

  /** The names of the first `n` candidates. */
  function Candidates(base: string, ext: string, n: nat): set<string> {
    if n == 0 then {} else Candidates(base, ext, n - 1) + {Candidate(base, ext, n)}
  }

  /** A later candidate is none of the earlier ones. */
  lemma {:induction false} LaterCandidateIsNew(base: string, ext: string, n: nat, m: nat)
    requires n < m
    ensures Candidate(base, ext, m) !in Candidates(base, ext, n)
  {
    if n > 0 {
      LaterCandidateIsNew(base, ext, n - 1, m);
      if Candidate(base, ext, n) == Candidate(base, ext, m) {
        CandidateInjective(base, ext, n, m);
      }
    }
  }

  /** The first `n` candidates are `n` distinct names. */
  lemma {:induction false} CandidatesCount(base: string, ext: string, n: nat)
    ensures |Candidates(base, ext, n)| == n
  {
    if n > 0 {
      CandidatesCount(base, ext, n - 1);
      LaterCandidateIsNew(base, ext, n - 1, n);
    }
  }

  /** Candidates that are all taken are among the taken names. */
  lemma {:induction false} CandidatesTaken(base: string, ext: string, dest: set<string>, n: nat)
    requires forall j :: 1 <= j <= n ==> Candidate(base, ext, j) in dest
    ensures Candidates(base, ext, n) <= dest
  {
    if n > 0 {
      CandidatesTaken(base, ext, dest, n - 1);
    }
  }

  lemma SubsetCard(a: set<string>, b: set<string>)
    requires a <= b
    ensures |a| <= |b|
  {
    assert b == a + (b - a);
  }

  /** A directory with every one of the first `n` candidates holds at least `n` names. */
  lemma TakenBound(base: string, ext: string, dest: set<string>, n: nat)
    requires forall j :: 1 <= j <= n ==> Candidate(base, ext, j) in dest
    ensures n <= |dest|
  {
    CandidatesCount(base, ext, n);
    CandidatesTaken(base, ext, dest, n);
    SubsetCard(Candidates(base, ext, n), dest);
  }

  /** The smallest counter from `k` on whose candidate is free; the search ends
      because `dest` is finite and the candidates are distinct. */
  function FirstFreeIndex(base: string, ext: string, dest: set<string>, k: nat): (r: nat)
    requires 1 <= k
    requires forall j :: 1 <= j < k ==> Candidate(base, ext, j) in dest
    ensures k <= r
    ensures Candidate(base, ext, r) !in dest
    ensures forall j :: 1 <= j < r ==> Candidate(base, ext, j) in dest
    decreases |dest| + 1 - k
  {
    if Candidate(base, ext, k) !in dest then k
    else
      TakenBound(base, ext, dest, k);
      FirstFreeIndex(base, ext, dest, k + 1)
  }

  /** Two counters that are both "first free" are the same counter. */
  lemma FirstFreeUnique(base: string, ext: string, dest: set<string>, r: nat)
    requires 1 <= r && Candidate(base, ext, r) !in dest
    requires forall j :: 1 <= j < r ==> Candidate(base, ext, j) in dest
    ensures FirstFreeIndex(base, ext, dest, 1) == r
  {
  }

  /** What `generateUniqueFileName` returns for a name in the directory
      `dest`: the first free "base (k).ext". It is never a name already in
      `dest` and always longer than the name it replaces. */
  function UniqueFileName(name: string, dest: set<string>): (r: string)
    ensures r !in dest
    ensures |r| > |name|
  {
    var base, ext := NameWithoutExtension(name), Extension(name);
    NameSplitsAtLastDot(name);
    Candidate(base, ext, FirstFreeIndex(base, ext, dest, 1))
  }

  /** The generated name is "base (k).ext" for the smallest k >= 1 that is free. */
  lemma UniqueFileNameIsFirstFree(name: string, dest: set<string>)
    ensures var base, ext := NameWithoutExtension(name), Extension(name);
      exists k: nat :: 1 <= k && UniqueFileName(name, dest) == Candidate(base, ext, k) &&
        Candidate(base, ext, k) !in dest &&
        forall j :: 1 <= j < k ==> Candidate(base, ext, j) in dest
  {
    var base, ext := NameWithoutExtension(name), Extension(name);
    var k := FirstFreeIndex(base, ext, dest, 1);
    assert UniqueFileName(name, dest) == Candidate(base, ext, k);
  }

  /** Every candidate ends in the extension it was built with. */
  lemma CandidateEndsWith(base: string, ext: string, k: nat)
    ensures EndsWith(Candidate(base, ext, k), "." + ext)
  {
    var c := Candidate(base, ext, k);
    var stem := base + " (" + NatToString(k) + ")";
    assert c == stem + ("." + ext);
  }

  /** A generated name ends in the dot-free extension of the name it replaces. */
  lemma UniqueFileNameKeepsExtension(name: string, dest: set<string>, e: string)
    requires '.' !in e && EndsWith(name, "." + e)
    ensures EndsWith(UniqueFileName(name, dest), "." + e)
  {
    ExtensionOfSuffix(name, e);
    var base := NameWithoutExtension(name);
    CandidateEndsWith(base, e, FirstFreeIndex(base, e, dest, 1));
  }

  lemma AudioSuffixes()
    ensures "." + "mp3" == ".mp3" && "." + "flac" == ".flac" && "." + "wav" == ".wav" && "." + "m4a" == ".m4a"
    ensures '.' !in "mp3" && '.' !in "flac" && '.' !in "wav" && '.' !in "m4a"
  {
  }

  /** A generated name keeps the audio extension of the name it replaces. */
  lemma UniqueFileNameKeepsAudio(name: string, dest: set<string>)
    requires IsAudioName(name)
    ensures IsAudioName(UniqueFileName(name, dest))
  {
    AudioSuffixes();
    var e := if EndsWith(name, ".mp3") then "mp3" else if EndsWith(name, ".flac") then "flac"
      else if EndsWith(name, ".wav") then "wav" else "m4a";
    UniqueFileNameKeepsExtension(name, dest, e);
  }

  /** The name a moved file gets: its own name if that is free, otherwise the generated one. */
  function Target(name: string, dest: set<string>): (r: string)
    ensures r !in dest
    ensures name !in dest ==> r == name
  {
    if name in dest then UniqueFileName(name, dest) else name
  }

  // ---------------------------------------------------------------------
  // Relocation
  // ---------------------------------------------------------------------

  datatype EntryKind = RegularFile | Directory

  /** The messages `appendLog` receives, without their text and timestamp. */
  datatype LogEvent =
    | AlreadyDownloading       // a click while a download runs
    | Executing(command: string) // the command line about to run
    | Renamed(newName: string)  // a file moved under a generated name
    | Saved(name: string)       // a file moved under its own name
    | Completed                // the download succeeded
    | ExitError(code: int)      // the wrapper returned a non-zero code
    | Failed                   // the call into Python raised

  /** The output directory's names and the log events after some moves. */
  datatype Relocated = Relocated(dest: set<string>, events: seq<LogEvent>)

  /** One `File` of the listing: its name and whether it is a regular file. */
  datatype Entry = Entry(name: string, kind: EntryKind)

  /** Whether an entry of the temporary directory is one the loop moves. */
  predicate Movable(e: Entry) {
    e.kind == RegularFile && IsAudioName(e.name)
  }

  /** One iteration of the loop in `moveFilesToOutputDirectory` (lines 221-235).
      A rename in `failing` returns false, which the code ignores: nothing is
      added but the message is logged all the same. */
  function RelocateStep(e: Entry, o: Relocated, failing: set<string>): (r: Relocated)
    ensures r.dest == o.dest || r.dest == o.dest + {Target(e.name, o.dest)}
    ensures Movable(e) && e.name !in failing ==> r.dest == o.dest + {Target(e.name, o.dest)}
    ensures !Movable(e) || e.name in failing ==> r.dest == o.dest
  {
    if Movable(e) then
      var t := Target(e.name, o.dest);
      var dest := if e.name in failing then o.dest else o.dest + {t};
      Relocated(dest, o.events + [if e.name in o.dest then Renamed(t) else Saved(e.name)])
    else o
  }

  /** A step's effect on the log does not depend on the events before it. */
  lemma StepAppendsEvents(e: Entry, o: Relocated, failing: set<string>)
    ensures var step := RelocateStep(e, Relocated(o.dest, []), failing);
      RelocateStep(e, o, failing) == Relocated(step.dest, o.events + step.events)
  {
  }

  /** The whole loop over the directory listing, in listing order. */
  function Relocate(listing: seq<Entry>, dest: set<string>, failing: set<string>): (r: Relocated)
    ensures dest <= r.dest
    decreases |listing|
  {
    if listing == [] then Relocated(dest, [])
    else RelocateStep(listing[|listing| - 1], Relocate(listing[..|listing| - 1], dest, failing), failing)
  }

  /** How many listed entries are moved successfully. */
  function MovedCount(listing: seq<Entry>, failing: set<string>): nat
    decreases |listing|
  {
    if listing == [] then 0
    else
      var last := listing[|listing| - 1];
      MovedCount(listing[..|listing| - 1], failing) + (if Movable(last) && last.name !in failing then 1 else 0)
  }

  /** How many listed entries the loop tries to move. */
  function AttemptedCount(listing: seq<Entry>): nat
    decreases |listing|
  {
    if listing == [] then 0
    else AttemptedCount(listing[..|listing| - 1]) + (if Movable(listing[|listing| - 1]) then 1 else 0)
  }

  /** Relocating one more listed entry is one more step. */
  lemma RelocateSnoc(listing: seq<Entry>, e: Entry, dest: set<string>, failing: set<string>)
    ensures Relocate(listing + [e], dest, failing) == RelocateStep(e, Relocate(listing, dest, failing), failing)
  {
    assert (listing + [e])[..|listing|] == listing;
  }

  /** No name already in the output directory is lost, and each successful
      move adds exactly one name that was not there: the directory grows by the
      number of files moved. Every attempted move is logged once, whether the
      rename worked or not. */
  lemma {:induction false} RelocateGrowth(listing: seq<Entry>, dest: set<string>, failing: set<string>)
    ensures dest <= Relocate(listing, dest, failing).dest
    ensures |Relocate(listing, dest, failing).dest| == |dest| + MovedCount(listing, failing)
    ensures |Relocate(listing, dest, failing).events| == AttemptedCount(listing)
    decreases |listing|
  {
    if listing != [] {
      var last := listing[|listing| - 1];
      var o := Relocate(listing[..|listing| - 1], dest, failing);
      RelocateGrowth(listing[..|listing| - 1], dest, failing);
      if Movable(last) && last.name !in failing {
        assert Target(last.name, o.dest) !in o.dest;
      }
    }
  }

  /** Every name the relocation adds to the output directory ends in an audio extension. */
  lemma {:induction false} RelocateAddsOnlyAudio(listing: seq<Entry>, dest: set<string>, failing: set<string>)
    ensures forall x :: x in Relocate(listing, dest, failing).dest && x !in dest ==> IsAudioName(x)
    decreases |listing|
  {
    if listing != [] {
      var last := listing[|listing| - 1];
      var o := Relocate(listing[..|listing| - 1], dest, failing);
      RelocateAddsOnlyAudio(listing[..|listing| - 1], dest, failing);
      if Movable(last) && last.name in o.dest {
        UniqueFileNameKeepsAudio(last.name, o.dest);
      }
    }
  }

  /** When nothing listed is an audio file, the output directory does not change and nothing is logged. */
  lemma {:induction false} RelocateIgnoresOthers(listing: seq<Entry>, dest: set<string>, failing: set<string>)
    requires forall i :: 0 <= i < |listing| ==> !Movable(listing[i])
    ensures Relocate(listing, dest, failing) == Relocated(dest, [])
    decreases |listing|
  {
    if listing != [] {
      assert !Movable(listing[|listing| - 1]);
      RelocateIgnoresOthers(listing[..|listing| - 1], dest, failing);
    }
  }

  lemma SongNameParts()
    ensures NameWithoutExtension("song.mp3") == "song" && Extension("song.mp3") == "mp3"
  {
    AudioExtension("song.mp3", "mp3");
    NameSplitsAtLastDot("song.mp3");
  }

  lemma SongCandidates()
    ensures Candidate("song", "mp3", 1) == "song (1).mp3"
    ensures Candidate("song", "mp3", 2) == "song (2).mp3"
  {
    assert NatToString(1) == "1" && NatToString(2) == "2";
  }

  /** A file whose name is taken is renamed "song (1).mp3". */
  lemma CollisionGetsFirstSuffix()
    ensures UniqueFileName("song.mp3", {"song.mp3"}) == "song (1).mp3"
  {
    SongNameParts();
    SongCandidates();
    assert |"song (1).mp3"| != |"song.mp3"|;
    FirstFreeUnique("song", "mp3", {"song.mp3"}, 1);
  }

  /** With "song.mp3" and "song (1).mp3" taken, the probe goes on to "song (2).mp3". */
  lemma CollisionProbesSequentially()
    ensures UniqueFileName("song.mp3", {"song.mp3", "song (1).mp3"}) == "song (2).mp3"
  {
    SongNameParts();
    SongCandidates();
    assert |"song (2).mp3"| != |"song.mp3"|;
    assert "song (2).mp3"[6] != "song (1).mp3"[6];
    FirstFreeUnique("song", "mp3", {"song.mp3", "song (1).mp3"}, 2);
  }

  // ---------------------------------------------------------------------
  // Starting a download
  // ---------------------------------------------------------------------

  /** The arguments text as `startDownload` tokenises it (line 156): nothing
      when it is blank, otherwise the trimmed text split on single spaces, so
      two spaces in a row give an empty token. */
  function TokenizeArgs(argsText: string): (args: seq<string>)
    ensures args == [] <==> IsBlank(argsText)
    ensures Join(args, " ") == KtTrim(argsText)
    ensures forall i :: 0 <= i < |args| ==> ' ' !in args[i]
  {
    var t := KtTrim(argsText);
    TrimEmptyIff(argsText, KtIsWhitespace);
    if t == "" then []
    else
      SplitJoinRoundTrip(t, ' ');
      SplitPiecesFree(t, ' ');
      SplitOn(t, ' ')
  }

  /** A job as `startDownload` hands it to the background thread. */
  datatype Job = Job(url: string, args: seq<string>)

  /** The job a click starts (lines 149-156): none when the URL is blank,
      otherwise the trimmed URL and the tokenised arguments. */
  function AcceptJob(urlText: string, argsText: string): (r: Option<Job>)
    ensures r.None? <==> IsBlank(urlText)
    ensures r.Some? ==> r.value.url == KtTrim(urlText) && r.value.args == TokenizeArgs(argsText)
  {
    TrimEmptyIff(urlText, KtIsWhitespace);
    var url := KtTrim(urlText);
    if url == "" then None else Some(Job(url, TokenizeArgs(argsText)))
  }

  const TempDirName: string := "spotdl_temp"
  const OutputTemplate: string := "{artist} - {title}.{output-ext}"

  /** The absolute path of `File(filesDir, "spotdl_temp")`. */
  function TempDirPath(filesDir: string): string {
    filesDir + "/" + TempDirName
  }

  /** The spotdl command (lines 172-181), built with `add` and `addAll`. */
  method BuildCommand(url: string, tempDirPath: string, args: seq<string>) returns (command: seq<string>)
    ensures command == ["download", url, "--output", tempDirPath + "/" + OutputTemplate] + args
  {
    command := [];
    command := command + ["download"];
    command := command + [url];
    command := command + ["--output"];
    command := command + [tempDirPath + "/" + OutputTemplate];
    if args != [] {
      command := command + args;
    }
  }

  /** The command always has the four fixed tokens first and the user's
      arguments, unchanged and in order, after them. */
  lemma CommandShape(url: string, tempDirPath: string, args: seq<string>)
    ensures var command := ["download", url, "--output", tempDirPath + "/" + OutputTemplate] + args;
      |command| == 4 + |args| && command[4..] == args && "download" in command
  {
    var command := ["download", url, "--output", tempDirPath + "/" + OutputTemplate] + args;
    assert command[0] == "download";
  }

  /** How the Python scan reads the URL token. It is followed by "--output",
      so a URL starting with two dashes becomes a flag, one starting with a
      single dash is dropped, and any other URL is positional. */
  function UrlSegment(url: string): (g: SpotdlWrapper.Segment)
    ensures g.Positional? <==> !StartsWith(url, "-")
  {
    if StartsWith(url, "--") then SpotdlWrapper.Flag(url[2..])
    else if StartsWith(url, "-") then SpotdlWrapper.Dropped(url)
    else
      assert !StartsWith(url, "--") by {
        if |url| >= 2 { assert url[..2][..1] == url[..1]; }
      }
      SpotdlWrapper.Positional(url)
  }

  /** How the Python scan reads the command: "download" is a positional
      token, the URL is read by `UrlSegment`, the output template is the
      value of `--output`, and the user's arguments follow on their own. */
  lemma CommandSegments(url: string, path: string, args: seq<string>)
    requires !StartsWith(path, "--")
    ensures SpotdlWrapper.Segments(["download", url, "--output", path] + args) ==
      [SpotdlWrapper.Positional("download"), UrlSegment(url), SpotdlWrapper.KeyValue("output", path)] +
      SpotdlWrapper.Segments(args)
  {
    var c := ["download", url, "--output", path] + args;
    assert !StartsWith("download", "--") by { assert "download"[..2][0] == 'd'; }
    assert !StartsWith("download", "-") by { assert "download"[..1][0] == 'd'; }
    assert SpotdlWrapper.Segments(c) == [SpotdlWrapper.Positional("download")] + SpotdlWrapper.Segments(c[1..]);
    assert c[1..][1..] == c[2..];
    assert StartsWith("--output", "--") && "--output"[2..] == "output";
    assert SpotdlWrapper.Segments(c[1..]) == [UrlSegment(url)] + SpotdlWrapper.Segments(c[2..]);
    assert c[2..][2..] == args;
    assert SpotdlWrapper.Segments(c[2..]) == [SpotdlWrapper.KeyValue("output", path)] + SpotdlWrapper.Segments(args);
  }

  /** So, unless the user's arguments themselves name `--query`, the search
      query spotdl receives is "download", the URL, then the user's positional
      tokens, and "download" in the raw arguments always passes the wrapper's
      command test. */
  lemma CommandQuery(url: string, path: string, args: seq<string>)
    requires !StartsWith(url, "-") && !StartsWith(path, "--")
    requires SpotdlWrapper.NoQueryKey(SpotdlWrapper.Segments(args))
    ensures var r := SpotdlWrapper.ParseArgs(["download", url, "--output", path] + args);
      r.Parsed? && "query" in r.args &&
      r.args["query"] == SpotdlWrapper.QueryList(["download", url] + SpotdlWrapper.Positionals(SpotdlWrapper.Segments(args)))
  {
    var c := ["download", url, "--output", path] + args;
    CommandSegments(url, path, args);
    QueryFromSegments(c, url, path, SpotdlWrapper.Segments(args));
  }

  /** A `--query` among the user's arguments replaces the whole query: when
      parsing succeeds, the query spotdl receives is the last `--query`'s
      value, and neither "download" nor the URL is part of it. */
  lemma CommandQueryOption(url: string, path: string, args: seq<string>)
    requires !StartsWith(path, "--")
    requires SpotdlWrapper.ParseArgs(["download", url, "--output", path] + args).Parsed?
    requires SpotdlWrapper.LastSetting(SpotdlWrapper.Segments(args), "query").Some?
    ensures var r := SpotdlWrapper.ParseArgs(["download", url, "--output", path] + args);
      "query" in r.args && r.args["query"] == SpotdlWrapper.LastSetting(SpotdlWrapper.Segments(args), "query").value
  {
    var c := ["download", url, "--output", path] + args;
    CommandSegments(url, path, args);
    SpotdlWrapper.LastSettingAfter(
      [SpotdlWrapper.Positional("download"), UrlSegment(url), SpotdlWrapper.KeyValue("output", path)],
      SpotdlWrapper.Segments(args), "query");
    SpotdlWrapper.ParseQueryLastWins(c);
  }

  lemma QueryFromSegments(c: seq<string>, url: string, path: string, tail: seq<SpotdlWrapper.Segment>)
    requires SpotdlWrapper.Segments(c) ==
      [SpotdlWrapper.Positional("download"), SpotdlWrapper.Positional(url), SpotdlWrapper.KeyValue("output", path)] + tail
    requires SpotdlWrapper.NoQueryKey(tail)
    ensures var r := SpotdlWrapper.ParseArgs(c);
      r.Parsed? && "query" in r.args &&
      r.args["query"] == SpotdlWrapper.QueryList(["download", url] + SpotdlWrapper.Positionals(tail))
  {
    var segs := SpotdlWrapper.Segments(c);
    assert SpotdlWrapper.NoQueryKey(segs) by {
      forall j | 0 <= j < |segs| ensures !SpotdlWrapper.SetsKey(segs[j], "query") {
        if j >= 3 { assert segs[j] == tail[j - 3]; }
      }
    }
    assert segs[2..][1..] == tail;
    assert segs[1..][1..] == segs[2..];
    assert SpotdlWrapper.Positionals(segs[2..]) == SpotdlWrapper.Positionals(tail);
    assert SpotdlWrapper.Positionals(segs[1..]) == [url] + SpotdlWrapper.Positionals(tail);
    assert SpotdlWrapper.Positionals(segs) == ["download", url] + SpotdlWrapper.Positionals(tail);
    SpotdlWrapper.ParseCollectsQuery(c);
  }

  /** The temporary directory after the fetch: what was left there before
      (it survives a failed job) together with what spotdl wrote. */
  function Fetched(tempDir: Option<map<string, EntryKind>>, produced: map<string, EntryKind>): (r: map<string, EntryKind>)
    ensures r.Keys == (if tempDir.Some? then tempDir.value.Keys else {}) + produced.Keys
    ensures forall x :: x in produced ==> r[x] == produced[x]
    ensures forall x :: x in r && x !in produced ==> tempDir.Some? && r[x] == tempDir.value[x]
  {
    (if tempDir.Some? then tempDir.value else map[]) + produced
  }

  /** `listFiles()` order: each entry once, in some order. */
  ghost predicate IsListing(listing: seq<Entry>, dir: map<string, EntryKind>) {
    (forall i, j :: 0 <= i < j < |listing| ==> listing[i].name != listing[j].name) &&
    (forall i :: 0 <= i < |listing| ==> listing[i].name in dir && dir[listing[i].name] == listing[i].kind) &&
    (forall x :: x in dir ==> exists i :: 0 <= i < |listing| && listing[i].name == x)
  }

  // ---------------------------------------------------------------------
  // The activity
  // ---------------------------------------------------------------------

  class MainActivity {
    /** The single-job gate. */
    var isDownloading: bool
    /** The names in `outputDirectory`. */
    var outputDir: set<string>
    /** The entries of `filesDir/spotdl_temp`, or None when it does not exist. */
    var tempDir: Option<map<string, EntryKind>>
    /** What `appendLog` has been given, oldest first. */
    var log: seq<LogEvent>

    constructor (outputDir: set<string>, tempDir: Option<map<string, EntryKind>>)
      ensures !isDownloading && this.outputDir == outputDir && this.tempDir == tempDir && log == []
    {
      isDownloading := false;
      this.outputDir := outputDir;
      this.tempDir := tempDir;
      log := [];
    }

    /** The download button's listener (lines 73-82); `permitted` is what
        `checkPermissions()` answers. A click while a download runs only logs. */
    method OnDownloadClick(urlText: string, argsText: string, permitted: bool) returns (job: Option<Job>)
      modifies this
      ensures old(isDownloading) ==> job == None && isDownloading && log == old(log) + [AlreadyDownloading]
      ensures !old(isDownloading) && !permitted ==> job == None && !isDownloading && log == old(log)
      ensures !old(isDownloading) && permitted ==>
        job == AcceptJob(urlText, argsText) && isDownloading == job.Some? && log == old(log)
      ensures outputDir == old(outputDir) && tempDir == old(tempDir)
    {
      if isDownloading {
        log := log + [AlreadyDownloading];
        return None;
      }
      job := None;
      if permitted {
        job := StartDownload(urlText, argsText);
      }
    }

    /** The part of `startDownload` on the UI thread (lines 148-161): a blank
        URL is rejected without touching the gate; otherwise the gate closes
        and the job is handed to the background thread. */
    method StartDownload(urlText: string, argsText: string) returns (job: Option<Job>)
      modifies this
      ensures job == AcceptJob(urlText, argsText)
      ensures isDownloading == (old(isDownloading) || job.Some?)
      ensures outputDir == old(outputDir) && tempDir == old(tempDir) && log == old(log)
    {
      var url := KtTrim(urlText);
      if url == "" {
        return None;
      }
      var argsTextTrimmed := KtTrim(argsText);
      var args := if argsTextTrimmed != "" then SplitOn(argsTextTrimmed, ' ') else [];
      assert args == TokenizeArgs(argsText);
      isDownloading := true;
      job := Some(Job(url, args));
    }

    /** The background thread of `startDownload` (lines 163-214). The call into
        Python either raises (`callRaises`) or returns `run_spotdl`'s exit code
        under the spotdl oracle `env`; `produced` is what spotdl wrote into the
        temporary directory, `listing` what `listFiles()` then returns (None
        for null), and `failing` the files whose `renameTo` returns false. */
    method RunJob(job: Job, filesDir: string, env: SpotdlWrapper.SpotdlEnv, callRaises: bool,
                  produced: map<string, EntryKind>, listing: Option<seq<Entry>>, failing: set<string>)
      returns (command: seq<string>)
      requires listing.Some? ==> IsListing(listing.value, Fetched(tempDir, produced))
      modifies this
      ensures command == ["download", job.url, "--output", TempDirPath(filesDir) + "/" + OutputTemplate] + job.args
      ensures !isDownloading
      ensures var fetched := Fetched(old(tempDir), produced);
        var code := SpotdlWrapper.RunSpotdl(command, env);
        var start := old(log) + [Executing(Join(command, " "))];
        if !callRaises && code == 0 then
          tempDir == None &&
          (listing.None? ==> outputDir == old(outputDir) && log == start + [Completed]) &&
          (listing.Some? ==>
            var o := Relocate(listing.value, old(outputDir), failing);
            outputDir == o.dest && log == start + o.events + [Completed])
        else
          tempDir == Some(fetched) && outputDir == old(outputDir) &&
          log == start + [if callRaises then Failed else ExitError(code)]
    {
      if tempDir.None? {
        tempDir := Some(map[]);
      }
      command := BuildCommand(job.url, TempDirPath(filesDir), job.args);
      log := log + [Executing(Join(command, " "))];
      tempDir := Some(tempDir.value + produced);
      if callRaises {
        log := log + [Failed];
      } else {
        var result := SpotdlWrapper.RunSpotdl(command, env);
        if result == 0 {
          MoveFilesToOutputDirectory(listing, failing);
          log := log + [Completed];
        } else {
          log := log + [ExitError(result)];
        }
      }
      isDownloading := false;
    }

    /** `moveFilesToOutputDirectory` (lines 217-242): moves the listed audio
        files, then deletes the temporary directory with everything left in it. */
    method MoveFilesToOutputDirectory(listing: Option<seq<Entry>>, failing: set<string>)
      modifies this
      ensures tempDir == None && isDownloading == old(isDownloading)
      ensures listing.None? ==> outputDir == old(outputDir) && log == old(log)
      ensures listing.Some? ==>
        var o := Relocate(listing.value, old(outputDir), failing);
        outputDir == o.dest && log == old(log) + o.events
    {
      if listing.Some? {
        var files := listing.value;
        ghost var dest0, log0 := outputDir, log;
        var i := 0;
        assert files[..0] == [];
        while i < |files|
          invariant 0 <= i <= |files|
          invariant outputDir == Relocate(files[..i], dest0, failing).dest
          invariant log == log0 + Relocate(files[..i], dest0, failing).events
          invariant tempDir == old(tempDir) && isDownloading == old(isDownloading)
        {
          var file := files[i];
          ghost var o := Relocate(files[..i], dest0, failing);
          RelocateSnoc(files[..i], file, dest0, failing);
          assert files[..i + 1] == files[..i] + [file];
          StepAppendsEvents(file, o, failing);
          MoveFile(file, failing);
          i := i + 1;
        }
        assert files[..i] == files;
      }
      tempDir := None;
    }

    /** The body of the loop in `moveFilesToOutputDirectory` (lines 221-235)
        for one listed entry. */
    method MoveFile(file: Entry, failing: set<string>)
      modifies this
      ensures var step := RelocateStep(file, Relocated(old(outputDir), []), failing);
        outputDir == step.dest && log == old(log) + step.events
      ensures tempDir == old(tempDir) && isDownloading == old(isDownloading)
    {
      var name := file.name;
      ghost var step := RelocateStep(file, Relocated(outputDir, []), failing);
      if file.kind == RegularFile && IsAudioName(name) {
        if name in outputDir {
          var newName := GenerateUniqueFileName(name);
          assert newName == Target(name, outputDir);
          assert step.events == [Renamed(newName)];
          if name !in failing {
            outputDir := outputDir + {newName};
          }
          log := log + [Renamed(newName)];
        } else {
          assert step.events == [Saved(name)];
          if name !in failing {
            outputDir := outputDir + {name};
          }
          log := log + [Saved(name)];
        }
      }
    }

    /** `generateUniqueFileName` (lines 244-257): a do-while loop over the
        counter, probing the output directory. */
    method GenerateUniqueFileName(name: string) returns (newName: string)
      ensures newName == UniqueFileName(name, outputDir)
    {
      var baseName := NameWithoutExtension(name);
      var extension := Extension(name);
      var counter := 1;
      newName := Candidate(baseName, extension, counter);
      counter := counter + 1;
      while newName in outputDir
        invariant 2 <= counter
        invariant newName == Candidate(baseName, extension, counter - 1)
        invariant forall j :: 1 <= j < counter - 1 ==> Candidate(baseName, extension, j) in outputDir
        decreases |outputDir| + 2 - counter
      {
        TakenBound(baseName, extension, outputDir, counter - 1);
        newName := Candidate(baseName, extension, counter);
        counter := counter + 1;
      }
      FirstFreeUnique(baseName, extension, outputDir, counter - 1);
    }
  }
}

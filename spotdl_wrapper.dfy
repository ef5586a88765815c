/** The Python side of the app: the hand-written argument scanner
    `parse_arguments`, the exit-code decision of `run_spotdl` with the spotdl
    library as an oracle, and the FIFO log queue behind the replaced
    stdout/stderr. */
module SpotdlWrapper {
  import opened Strings
  import opened Wrappers

  /** A value stored by `parse_arguments`: the string that followed a `--key`,
      Python's `True` for a key with no value, or the list of positional tokens. */
  datatype ArgValue = Str(text: string) | True | QueryList(items: seq<string>)

  type ParsedArgs = map<string, ArgValue>

  /** `parse_arguments` either returns its dictionary or raises: appending a
      positional token to a "query" entry that a `--query` token set to a
      string or to `True` raises AttributeError. */
  datatype ParseResult = Parsed(args: ParsedArgs) | AttributeError

  // ---------------------------------------------------------------------
  // Tokenisation: how the scan groups the tokens
  // ---------------------------------------------------------------------

  /** One step of the scan: a `--key` with the value it consumed, a `--key`
      alone, a positional token, or a single-dash token that is ignored. */
  datatype Segment =
    | KeyValue(key: string, value: string)
    | Flag(key: string)
    | Positional(token: string)
    | Dropped(token: string)

  /** The tokens a segment was made from. */
  function Tokens(g: Segment): seq<string> {
    match g
    case KeyValue(k, v) => ["--" + k, v]
    case Flag(k) => ["--" + k]
    case Positional(t) => [t]
    case Dropped(t) => [t]
  }

  function Flatten(segs: seq<Segment>): seq<string> {
    if segs == [] then [] else Tokens(segs[0]) + Flatten(segs[1..])
  }

  /** What the scan demands of the segment at position `j`: a consumed value
      does not start with `--`; a `--key` stands alone only at the end or
      before another `--` token; a positional token does not start with `-`;
      a dropped token starts with one dash but not two. */
  predicate WellFormedAt(segs: seq<Segment>, j: nat)
    requires j < |segs|
  {
    match segs[j]
    case KeyValue(_, v) => !StartsWith(v, "--")
    case Flag(_) => j + 1 == |segs| || segs[j + 1].KeyValue? || segs[j + 1].Flag?
    case Positional(t) => !StartsWith(t, "-")
    case Dropped(t) => StartsWith(t, "-") && !StartsWith(t, "--")
  }

  predicate WellFormed(segs: seq<Segment>) {
    forall j :: 0 <= j < |segs| ==> WellFormedAt(segs, j)
  }

  /** The grouping `parse_arguments` makes, left to right (lines 179-192).
      Each step consumes one token or two, so the scan makes at most one step
      per token and at least one per two tokens. */
  function Segments(s: seq<string>): (r: seq<Segment>)
    ensures |r| <= |s| <= 2 * |r|
    decreases |s|
  {
    if s == [] then []
    else if StartsWith(s[0], "--") then
      if 1 < |s| && !StartsWith(s[1], "--") then [KeyValue(s[0][2..], s[1])] + Segments(s[2..])
      else [Flag(s[0][2..])] + Segments(s[1..])
    else if !StartsWith(s[0], "-") then [Positional(s[0])] + Segments(s[1..])
    else [Dropped(s[0])] + Segments(s[1..])
  }

  lemma DoubleDashKey(t: string)
    requires StartsWith(t, "--")
    ensures "--" + t[2..] == t
  {
    assert t == t[..2] + t[2..];
  }

  lemma FlattenCons(g: Segment, rest: seq<Segment>)
    ensures Flatten([g] + rest) == Tokens(g) + Flatten(rest)
  {
    assert ([g] + rest)[1..] == rest;
  }

  lemma WellFormedCons(g: Segment, rest: seq<Segment>)
    ensures WellFormed([g] + rest) <==> WellFormedAt([g] + rest, 0) && WellFormed(rest)
  {
    var segs := [g] + rest;
    forall j | 0 <= j < |rest| ensures WellFormedAt(segs, j + 1) == WellFormedAt(rest, j) {
      assert segs[j + 1] == rest[j];
      if j + 1 < |rest| { assert segs[j + 2] == rest[j + 1]; }
    }
    if WellFormedAt(segs, 0) && WellFormed(rest) {
      forall j | 0 <= j < |segs| ensures WellFormedAt(segs, j) {
        if j > 0 { assert WellFormedAt(rest, j - 1); }
      }
    }
    if WellFormed(segs) {
      forall j | 0 <= j < |rest| ensures WellFormedAt(rest, j) {
        assert WellFormedAt(segs, j + 1);
      }
    }
  }

  /** The scan examines every token exactly once: the segments, read back as
      tokens, are the input. Each step consumes one token or two. */
  /** One step of the scan: the first segment consumes the first tokens of
      the input, and the scan goes on with the rest. */
  lemma SegmentsStep(s: seq<string>)
    requires s != []
    ensures var g := Segments(s)[0];
      |Tokens(g)| <= |s| && Tokens(g) + s[|Tokens(g)|..] == s &&
      Segments(s) == [g] + Segments(s[|Tokens(g)|..])
  {
    if StartsWith(s[0], "--") {
      DoubleDashKey(s[0]);
      if 1 < |s| && !StartsWith(s[1], "--") {
        assert s == [s[0], s[1]] + s[2..];
      } else {
        assert s == [s[0]] + s[1..];
      }
    } else {
      assert s == [s[0]] + s[1..];
    }
  }

  lemma {:induction false} SegmentsCover(s: seq<string>)
    ensures Flatten(Segments(s)) == s
    decreases |s|
  {
    if s != [] {
      SegmentsStep(s);
      var g := Segments(s)[0];
      var tail := s[|Tokens(g)|..];
      SegmentsCover(tail);
      FlattenCons(g, Segments(tail));
    }
  }

  /** A non-empty input whose first token starts with `--` begins with a key segment. */
  lemma SegmentsHeadKey(s: seq<string>)
    requires s != [] && StartsWith(s[0], "--")
    ensures Segments(s) != [] && (Segments(s)[0].KeyValue? || Segments(s)[0].Flag?)
  {
  }

  /** Every segment the scan produces obeys the scan's rules. */
  lemma {:induction false} SegmentsWellFormed(s: seq<string>)
    ensures WellFormed(Segments(s))
    decreases |s|
  {
    if s != [] {
      var segs := Segments(s);
      var tail := s[|Tokens(segs[0])|..];
      if StartsWith(s[0], "--") && 1 < |s| && !StartsWith(s[1], "--") {
        assert tail == s[2..];
      } else {
        assert tail == s[1..];
      }
      assert segs == [segs[0]] + Segments(tail);
      SegmentsWellFormed(tail);
      WellFormedCons(segs[0], Segments(tail));
      if segs[0].Flag? && tail != [] {
        SegmentsHeadKey(tail);
      }
    }
  }

  /** The scan's grouping is the only well-formed grouping of the tokens: any
      sequence of segments that reads back as `s` and obeys the rules is
      `Segments(s)`. */
  lemma {:induction false} SegmentationUnique(s: seq<string>, segs: seq<Segment>)
    requires Flatten(segs) == s && WellFormed(segs)
    ensures segs == Segments(s)
    decreases |segs|
  {
    if segs != [] {
      var g, rest := segs[0], segs[1..];
      assert segs == [g] + rest;
      FlattenCons(g, rest);
      WellFormedCons(g, rest);
      var n := |Tokens(g)|;
      assert s[..n] == Tokens(g) && s[n..] == Flatten(rest);
      SegmentationUnique(s[n..], rest);
      match g {
        case KeyValue(k, v) =>
          assert s[0] == "--" + k && s[1] == v;
          assert StartsWith(s[0], "--") && s[0][2..] == k;
        case Flag(k) =>
          assert s[0] == "--" + k;
          assert StartsWith(s[0], "--") && s[0][2..] == k;
          if rest != [] {
            FlattenCons(rest[0], rest[1..]);
            assert rest == [rest[0]] + rest[1..];
            assert s[1] == Tokens(rest[0])[0];
          }
        case Positional(t) =>
          assert s[0] == t;
        case Dropped(t) =>
          assert s[0] == t;
      }
    } else {
      assert s == [];
    }
  }

  // ---------------------------------------------------------------------
  // Interpretation: how each segment changes the dictionary
  // ---------------------------------------------------------------------

  function ApplySegment(m: ParsedArgs, g: Segment): ParseResult {
    match g
    case KeyValue(k, v) => Parsed(m[k := Str(v)])
    case Flag(k) => Parsed(m[k := True])
    case Positional(t) =>
      if "query" !in m then Parsed(m["query" := QueryList([t])])
      else if m["query"].QueryList? then Parsed(m["query" := QueryList(m["query"].items + [t])])
      else AttributeError
    case Dropped(_) => Parsed(m)
  }

  /** The dictionary after applying the segments in order, starting from `m`.
      No key is ever removed, and only a positional token can raise. */
  function Apply(m: ParsedArgs, segs: seq<Segment>): (r: ParseResult)
    ensures r.Parsed? ==> m.Keys <= r.args.Keys
    ensures r.AttributeError? ==> Positionals(segs) != []
    decreases |segs|
  {
    if segs == [] then Parsed(m)
    else
      match ApplySegment(m, segs[0])
      case AttributeError => AttributeError
      case Parsed(m') => Apply(m', segs[1..])
  }

  lemma ApplyCons(m: ParsedArgs, g: Segment, rest: seq<Segment>)
    ensures Apply(m, [g] + rest) ==
      match ApplySegment(m, g)
      case AttributeError => AttributeError
      case Parsed(m') => Apply(m', rest)
  {
    assert ([g] + rest)[1..] == rest;
  }

  /** What `parse_arguments(args)` returns or raises: it can raise only when
      some token is positional. */
  function ParseArgs(args: seq<string>): (r: ParseResult)
    ensures r.AttributeError? ==> Positionals(Segments(args)) != []
  {
    Apply(map[], Segments(args))
  }

  /** `parse_arguments` (lines 167-194): a while loop over the index `i` that
      updates a dictionary and the query list in place. */
  method ParseArguments(args: seq<string>) returns (r: ParseResult)
    ensures r == ParseArgs(args)
  {
    var parsed: ParsedArgs := map[];
    var i := 0;
    while i < |args|
      invariant 0 <= i <= |args|
      invariant Apply(parsed, Segments(args[i..])) == ParseArgs(args)
      decreases |args| - i
    {
      var arg := args[i];
      ghost var rest := args[i..];
      ghost var before := parsed;
      assert rest[0] == arg && rest[1..] == args[i + 1..];
      if StartsWith(arg, "--") {
        var key := arg[2..];
        if i + 1 < |args| && !StartsWith(args[i + 1], "--") {
          assert rest[1] == args[i + 1] && rest[2..] == args[i + 2..];
          assert Segments(rest) == [KeyValue(key, args[i + 1])] + Segments(args[i + 2..]);
          ApplyCons(before, KeyValue(key, args[i + 1]), Segments(args[i + 2..]));
          parsed := parsed[key := Str(args[i + 1])];
          assert ApplySegment(before, KeyValue(key, args[i + 1])) == Parsed(parsed);
          i := i + 1;
        } else {
          assert Segments(rest) == [Flag(key)] + Segments(args[i + 1..]);
          ApplyCons(before, Flag(key), Segments(args[i + 1..]));
          parsed := parsed[key := True];
          assert ApplySegment(before, Flag(key)) == Parsed(parsed);
        }
      } else if !StartsWith(arg, "-") {
        assert Segments(rest) == [Positional(arg)] + Segments(args[i + 1..]);
          ApplyCons(before, Positional(arg), Segments(args[i + 1..]));
        if "query" !in parsed {
          parsed := parsed["query" := QueryList([])];
        }
        if !parsed["query"].QueryList? {
          return AttributeError;
        }
        parsed := parsed["query" := QueryList(parsed["query"].items + [arg])];
        assert QueryItems(before) + [arg] == parsed["query"].items;
        assert parsed == before["query" := QueryList(QueryItems(before) + [arg])];
        if "query" !in before {
          assert QueryItems(before) + [arg] == [arg];
        }
        assert ApplySegment(before, Positional(arg)) == Parsed(parsed);
      } else {
        assert Segments(rest) == [Dropped(arg)] + Segments(args[i + 1..]);
          ApplyCons(before, Dropped(arg), Segments(args[i + 1..]));
      }
      assert Apply(parsed, Segments(args[i + 1..])) == ParseArgs(args);
      i := i + 1;
    }
    assert args[i..] == [];
    r := Parsed(parsed);
  }

  // ---------------------------------------------------------------------
  // Properties of the parse
  // ---------------------------------------------------------------------

  predicate SetsKey(g: Segment, k: string) {
    (g.KeyValue? || g.Flag?) && g.key == k
  }

  function SettingOf(g: Segment): ArgValue
    requires g.KeyValue? || g.Flag?
  {
    if g.KeyValue? then Str(g.value) else True
  }

  /** The value the last segment naming `k` gives it, if any segment does. */
  function LastSetting(segs: seq<Segment>, k: string): (r: Option<ArgValue>)
    ensures r.Some? ==> r.value.Str? || r.value.True?
    decreases |segs|
  {
    if segs == [] then None
    else
      var later := LastSetting(segs[1..], k);
      if later.Some? then later
      else if SetsKey(segs[0], k) then Some(SettingOf(segs[0]))
      else None
  }

  /** For every key but "query", the last `--key` wins; a key no segment names
      keeps whatever the starting dictionary had. */
  lemma {:induction false} ApplyLastWins(m: ParsedArgs, segs: seq<Segment>, k: string)
    requires k != "query"
    requires Apply(m, segs).Parsed?
    ensures var r := Apply(m, segs).args;
      match LastSetting(segs, k)
      case Some(v) => k in r && r[k] == v
      case None => (k in r <==> k in m) && (k in m ==> r[k] == m[k])
    decreases |segs|
  {
    if segs != [] {
      var m' := ApplySegment(m, segs[0]).args;
      ApplyLastWins(m', segs[1..], k);
    }
  }

  /** `parse_arguments` maps each key other than "query" to the value of its
      last `--key` segment (the following token, or `True`), and has no entry
      for a key that no `--key` token names. */
  lemma ParseLastWins(args: seq<string>, k: string)
    requires k != "query"
    requires ParseArgs(args).Parsed?
    ensures var r := ParseArgs(args).args;
      (k in r <==> LastSetting(Segments(args), k).Some?) &&
      (k in r ==> r[k] == LastSetting(Segments(args), k).value)
  {
    ApplyLastWins(map[], Segments(args), k);
  }

  /** Segments in front do not change the last setting of a key that a later
      segment sets. */
  lemma {:induction false} LastSettingAfter(pre: seq<Segment>, tail: seq<Segment>, k: string)
    requires LastSetting(tail, k).Some?
    ensures LastSetting(pre + tail, k) == LastSetting(tail, k)
    decreases |pre|
  {
    if pre == [] {
      assert pre + tail == tail;
    } else {
      assert (pre + tail)[1..] == pre[1..] + tail;
      LastSettingAfter(pre[1..], tail, k);
    }
  }

  /** A "query" entry that cannot be appended to survives every later segment
      of a parse that succeeds, as long as no later `--query` replaces it. */
  lemma {:induction false} ApplyBlockedQueryKept(m: ParsedArgs, segs: seq<Segment>)
    requires Blocked(m)
    requires LastSetting(segs, "query").None?
    requires Apply(m, segs).Parsed?
    ensures "query" in Apply(m, segs).args && Apply(m, segs).args["query"] == m["query"]
    decreases |segs|
  {
    if segs != [] {
      var m' := ApplySegment(m, segs[0]).args;
      ApplyBlockedQueryKept(m', segs[1..]);
    }
  }

  /** When some segment sets "query" and applying succeeds, "query" holds the
      value of the last such segment. */
  lemma {:induction false} ApplyQueryLastWins(m: ParsedArgs, segs: seq<Segment>)
    requires Apply(m, segs).Parsed?
    requires LastSetting(segs, "query").Some?
    ensures "query" in Apply(m, segs).args && Apply(m, segs).args["query"] == LastSetting(segs, "query").value
    decreases |segs|
  {
    var m' := ApplySegment(m, segs[0]).args;
    if LastSetting(segs[1..], "query").Some? {
      ApplyQueryLastWins(m', segs[1..]);
    } else {
      ApplyBlockedQueryKept(m', segs[1..]);
    }
  }

  /** The last occurrence wins for "query" too: when a `--query` token occurs
      and parsing succeeds, "query" holds the last one's value (the next token
      or `True`), and the positional tokens before it are gone. */
  lemma ParseQueryLastWins(args: seq<string>)
    requires ParseArgs(args).Parsed?
    requires LastSetting(Segments(args), "query").Some?
    ensures var r := ParseArgs(args).args;
      "query" in r && r["query"] == LastSetting(Segments(args), "query").value && !r["query"].QueryList?
  {
    ApplyQueryLastWins(map[], Segments(args));
  }

  /** The positional tokens, in input order. */
  function Positionals(segs: seq<Segment>): seq<string>
    decreases |segs|
  {
    if segs == [] then []
    else (if segs[0].Positional? then [segs[0].token] else []) + Positionals(segs[1..])
  }

  predicate NoQueryKey(segs: seq<Segment>) {
    forall j :: 0 <= j < |segs| ==> !SetsKey(segs[j], "query")
  }

  function QueryItems(m: ParsedArgs): seq<string> {
    if "query" in m && m["query"].QueryList? then m["query"].items else []
  }

  lemma {:induction false} ApplyCollectsQuery(m: ParsedArgs, segs: seq<Segment>)
    requires NoQueryKey(segs)
    requires "query" in m ==> m["query"].QueryList?
    ensures Apply(m, segs).Parsed?
    ensures var r := Apply(m, segs).args;
      ("query" in r <==> "query" in m || Positionals(segs) != []) &&
      ("query" in r ==> r["query"] == QueryList(QueryItems(m) + Positionals(segs)))
    decreases |segs|
  {
    if segs != [] {
      var m' := ApplySegment(m, segs[0]).args;
      assert NoQueryKey(segs[1..]) by {
        forall j | 0 <= j < |segs[1..]| ensures !SetsKey(segs[1..][j], "query") {
          assert segs[1..][j] == segs[j + 1];
        }
      }
      assert !SetsKey(segs[0], "query");
      ApplyCollectsQuery(m', segs[1..]);
      if segs[0].Positional? {
        assert QueryItems(m') == QueryItems(m) + [segs[0].token];
      }
    }
  }

  /** When no `--query` token occurs, parsing succeeds and "query" holds the
      positional tokens in input order; it is absent when there are none. */
  lemma ParseCollectsQuery(args: seq<string>)
    requires NoQueryKey(Segments(args))
    ensures ParseArgs(args).Parsed?
    ensures var r := ParseArgs(args).args;
      ("query" in r <==> Positionals(Segments(args)) != []) &&
      ("query" in r ==> r["query"] == QueryList(Positionals(Segments(args))))
  {
    ApplyCollectsQuery(map[], Segments(args));
  }

  /** "query" holds something that cannot be appended to. */
  predicate Blocked(m: ParsedArgs) {
    "query" in m && !m["query"].QueryList?
  }

  /** Some positional token meets a "query" entry that is not a list: the
      dictionary started blocked, or a `--query` segment comes before it. */
  predicate QueryClash(segs: seq<Segment>, blocked: bool) {
    exists j :: 0 <= j < |segs| && segs[j].Positional? &&
      (blocked || exists i :: 0 <= i < j && SetsKey(segs[i], "query"))
  }

  lemma QueryClashShift(segs: seq<Segment>, blocked: bool)
    requires segs != [] && !segs[0].Positional?
    requires !SetsKey(segs[0], "query")
    ensures QueryClash(segs, blocked) <==> QueryClash(segs[1..], blocked)
  {
    var rest := segs[1..];
    if QueryClash(segs, blocked) {
      var j :| 0 <= j < |segs| && segs[j].Positional? &&
        (blocked || exists i :: 0 <= i < j && SetsKey(segs[i], "query"));
      assert rest[j - 1] == segs[j];
      if !blocked {
        var i :| 0 <= i < j && SetsKey(segs[i], "query");
        assert rest[i - 1] == segs[i];
      }
    }
    if QueryClash(rest, blocked) {
      var j :| 0 <= j < |rest| && rest[j].Positional? &&
        (blocked || exists i :: 0 <= i < j && SetsKey(rest[i], "query"));
      assert segs[j + 1] == rest[j];
      if !blocked {
        var i :| 0 <= i < j && SetsKey(rest[i], "query");
        assert segs[i + 1] == rest[i];
      }
    }
  }

  lemma QueryClashShiftPositional(segs: seq<Segment>)
    requires segs != [] && segs[0].Positional?
    ensures QueryClash(segs, false) <==> QueryClash(segs[1..], false)
  {
    var rest := segs[1..];
    if QueryClash(segs, false) {
      var j :| 0 <= j < |segs| && segs[j].Positional? &&
        exists i :: 0 <= i < j && SetsKey(segs[i], "query");
      var i :| 0 <= i < j && SetsKey(segs[i], "query");
      assert i > 0 && rest[j - 1] == segs[j] && rest[i - 1] == segs[i];
    }
    if QueryClash(rest, false) {
      var j :| 0 <= j < |rest| && rest[j].Positional? &&
        exists i :: 0 <= i < j && SetsKey(rest[i], "query");
      var i :| 0 <= i < j && SetsKey(rest[i], "query");
      assert segs[j + 1] == rest[j] && segs[i + 1] == rest[i];
    }
  }

  lemma QueryClashAfterQuery(segs: seq<Segment>, blocked: bool)
    requires segs != [] && SetsKey(segs[0], "query")
    ensures QueryClash(segs, blocked) <==> QueryClash(segs[1..], true)
  {
    var rest := segs[1..];
    if QueryClash(segs, blocked) {
      var j :| 0 <= j < |segs| && segs[j].Positional? &&
        (blocked || exists i :: 0 <= i < j && SetsKey(segs[i], "query"));
      assert rest[j - 1] == segs[j];
    }
    if QueryClash(rest, true) {
      var j :| 0 <= j < |rest| && rest[j].Positional?;
      assert segs[j + 1] == rest[j];
    }
  }

  lemma {:induction false} ApplyErrorIff(m: ParsedArgs, segs: seq<Segment>)
    ensures Apply(m, segs).AttributeError? <==> QueryClash(segs, Blocked(m))
    decreases |segs|
  {
    if segs != [] {
      var g, rest := segs[0], segs[1..];
      if g.Positional? && Blocked(m) {
        assert segs[0].Positional?;
      } else {
        var m' := ApplySegment(m, g).args;
        ApplyErrorIff(m', rest);
        if g.Positional? {
          assert !Blocked(m');
          QueryClashShiftPositional(segs);
        } else if SetsKey(g, "query") {
          assert Blocked(m');
          QueryClashAfterQuery(segs, Blocked(m));
        } else {
          assert Blocked(m') == Blocked(m);
          QueryClashShift(segs, Blocked(m));
        }
      }
    }
  }

  /** Some `--query` segment comes before some positional segment. */
  predicate QueryBeforePositional(segs: seq<Segment>) {
    exists i, j :: 0 <= i < j < |segs| && SetsKey(segs[i], "query") && segs[j].Positional?
  }

  lemma QueryClashUnblocked(segs: seq<Segment>)
    ensures QueryClash(segs, false) <==> QueryBeforePositional(segs)
  {
    if QueryClash(segs, false) {
      var j :| 0 <= j < |segs| && segs[j].Positional? &&
        exists i :: 0 <= i < j && SetsKey(segs[i], "query");
      var i :| 0 <= i < j && SetsKey(segs[i], "query");
      assert SetsKey(segs[i], "query") && segs[j].Positional?;
    }
    if QueryBeforePositional(segs) {
      var i, j :| 0 <= i < j < |segs| && SetsKey(segs[i], "query") && segs[j].Positional?;
      assert exists i' :: 0 <= i' < j && SetsKey(segs[i'], "query");
    }
  }

  /** `parse_arguments` raises exactly when some positional token comes after
      a `--query` token. */
  lemma ParseErrorIff(args: seq<string>)
    ensures ParseArgs(args).AttributeError? <==> QueryBeforePositional(Segments(args))
  {
    ApplyErrorIff(map[], Segments(args));
    assert !Blocked(map[]);
    QueryClashUnblocked(Segments(args));
  }

  function WithoutDropped(segs: seq<Segment>): seq<Segment>
    decreases |segs|
  {
    if segs == [] then []
    else (if segs[0].Dropped? then [] else [segs[0]]) + WithoutDropped(segs[1..])
  }

  /** A single-dash token that was not consumed as a value has no effect on
      the result. */
  lemma {:induction false} DroppedIgnored(m: ParsedArgs, segs: seq<Segment>)
    ensures Apply(m, segs) == Apply(m, WithoutDropped(segs))
    decreases |segs|
  {
    if segs != [] {
      var rest := WithoutDropped(segs[1..]);
      if segs[0].Dropped? {
        assert WithoutDropped(segs) == rest;
        DroppedIgnored(m, segs[1..]);
      } else {
        assert WithoutDropped(segs) == [segs[0]] + rest;
        assert ([segs[0]] + rest)[1..] == rest;
        match ApplySegment(m, segs[0]) {
          case AttributeError =>
          case Parsed(m') => DroppedIgnored(m', segs[1..]);
        }
      }
    }
  }

  /** A single-dash token right after a `--key` is taken as that key's value. */
  lemma SingleDashBecomesValue()
    ensures ParseArgs(["--format", "-x"]) == Parsed(map["format" := Str("-x")])
  {
    assert "-x"[..2][1] == 'x';
    assert StartsWith("--format", "--") && "--format"[2..] == "format";
    assert ["--format", "-x"][2..] == [];
  }

  // ---------------------------------------------------------------------
  // run_spotdl: the exit-code decision
  // ---------------------------------------------------------------------

  /** What `Spotdl.search` did: returned some number of songs, or raised. */
  datatype SearchOutcome = Songs(count: nat) | SearchRaised

  /** The spotdl library as an oracle: whether changing directory or building
      the client raised, what the search returns for a query value, and
      whether downloading raised. */
  datatype SpotdlEnv = SpotdlEnv(setupRaises: bool, search: ArgValue -> SearchOutcome, downloadRaises: bool)

  /** `spotdl_args.get("query", [])`. */
  function QueryOrEmpty(m: ParsedArgs): ArgValue {
    if "query" in m then m["query"] else QueryList([])
  }

  /** Python truthiness of a parsed value. */
  predicate Truthy(v: ArgValue) {
    match v
    case Str(t) => t != ""
    case True => true
    case QueryList(items) => items != []
  }

  /** The exit code `run_spotdl(args, temp_dir)` returns (lines 52-165). */
  function RunSpotdl(args: seq<string>, env: SpotdlEnv): (code: int)
    ensures code == 0 || code == 1
  {
    if env.setupRaises then 1
    else
      match ParseArgs(args)
      case AttributeError => 1
      case Parsed(m) =>
        if "download" !in args then 1
        else if !Truthy(QueryOrEmpty(m)) then 0
        else
          match env.search(QueryOrEmpty(m))
          case SearchRaised => 1
          case Songs(n) => if n == 0 || env.downloadRaises then 1 else 0
  }

  /** The exit code is 0 exactly when nothing raised, "download" is one of the
      raw arguments, and either the query is empty (the fall-through at the
      end) or the search found songs and downloading them did not raise. */
  lemma RunSpotdlZeroIff(args: seq<string>, env: SpotdlEnv)
    ensures RunSpotdl(args, env) == 0 <==>
      !env.setupRaises && ParseArgs(args).Parsed? && "download" in args &&
      var q := QueryOrEmpty(ParseArgs(args).args);
      (!Truthy(q) || (env.search(q).Songs? && env.search(q).count > 0 && !env.downloadRaises))
  {
  }

  /** The membership test is on the raw arguments, so "download" counts even
      when it was consumed as the value of a key. */
  lemma DownloadTestIsOnRawArgs(env: SpotdlEnv)
    requires !env.setupRaises
    ensures RunSpotdl(["--format", "download"], env) == 0
  {
    assert StartsWith("--format", "--") && "--format"[2..] == "format";
    assert "download"[..2][0] == 'd';
    assert ["--format", "download"][2..] == [];
    assert ParseArgs(["--format", "download"]) == Parsed(map["format" := Str("download")]);
  }

  // ---------------------------------------------------------------------
  // The log queue behind the replaced stdout and stderr
  // ---------------------------------------------------------------------

  datatype StreamType = Stdout | Stderr

  /** The tuple `(stream_type, text)` put on the queue. */
  datatype LogEntry = LogEntry(stream: StreamType, text: string)

  /** What one `QueueWriter.write(text)` call puts on the queue. */
  function Enqueued(stream: StreamType, text: string): seq<LogEntry> {
    if PyStrip(text) != "" then [LogEntry(stream, text)] else []
  }

  /** A write is queued, unchanged, exactly when the text has a character that
      is not Python whitespace; so the separate "\n" that `print` writes is
      never queued. */
  lemma EnqueuedIff(stream: StreamType, text: string)
    ensures Enqueued(stream, text) == [LogEntry(stream, text)] <==>
      exists i :: 0 <= i < |text| && !PyIsSpace(text[i])
    ensures Enqueued(stream, text) == [] <==>
      forall i :: 0 <= i < |text| ==> PyIsSpace(text[i])
  {
    TrimEmptyIff(text, PyIsSpace);
  }

  /** The module-level `log_queue`, a FIFO queue. */
  class LogQueue {
    var items: seq<LogEntry>

    constructor ()
      ensures items == []
    {
      items := [];
    }

    method Put(e: LogEntry)
      modifies this
      ensures items == old(items) + [e]
    {
      items := items + [e];
    }

    /** `get_nowait`: the oldest entry, or `None` where Python raises `Empty`. */
    method GetNowait() returns (e: Option<LogEntry>)
      modifies this
      ensures old(items) == [] ==> e == None && items == []
      ensures old(items) != [] ==> e == Some(old(items)[0]) && items == old(items)[1..]
    {
      if items == [] {
        e := None;
      } else {
        e := Some(items[0]);
        items := items[1..];
      }
    }
  }

  /** The object installed as `sys.stdout` or `sys.stderr` (lines 23-33). */
  class QueueWriter {
    const queue: LogQueue
    const streamType: StreamType

    constructor (queue: LogQueue, streamType: StreamType)
      ensures this.queue == queue && this.streamType == streamType
    {
      this.queue := queue;
      this.streamType := streamType;
    }

    method Write(text: string)
      modifies queue
      ensures queue.items == old(queue.items) + Enqueued(streamType, text)
    {
      if PyStrip(text) != "" {
        queue.Put(LogEntry(streamType, text));
      }
    }

    /** `flush` does nothing. */
    method Flush()
      ensures queue.items == old(queue.items)
    {
    }
  }

  /** `get_logs` (lines 38-50): drains the queue into a list, oldest first. */
  method GetLogs(q: LogQueue) returns (logs: seq<LogEntry>)
    modifies q
    ensures logs == old(q.items)
    ensures q.items == []
  {
    logs := [];
    while true
      invariant logs + q.items == old(q.items)
      decreases |q.items|
    {
      var e := q.GetNowait();
      if e.None? {
        break;
      }
      logs := logs + [e.value];
    }
  }
}

/** Concrete parses that pin down the walk's behaviour: an example vector parsed
    against the demo program's option set, an early stop on a missing value,
    an unknown token, the registry scan going on after a match and after a
    value option has moved the index onto its value, and grouping running
    ahead of `--` and of values. */
module Scenarios {
  import opened Wrappers
  import opened Cells
  import opened Registry
  import opened ShortGroups
  import opened TokenWalk

  /** The demo's registry: `-a/--a-option` switches a flag on,
      `-b/--b-option` switches one off, `-c/--c-option` takes a value. */
  function DemoOptions(a: BoolRef, b: BoolRef, c: StringBuilder): seq<Opt>
  {
    [ Opt(Some('a'), Some("a-option"), Flag(a, true)),
      Opt(Some('b'), Some("b-option"), Flag(b, false)),
      Opt(Some('c'), Some("c-option"), Value(c)) ]
  }

  /** An example vector for the demo's options (the demo itself parses the
      process's own arguments): two flags, a value option and its value, a
      positional, the terminator, and two tokens after it. */
  function DemoArgs(): seq<string>
  {
    ["-a", "--b-option", "-c", "val", "pos1", "--", "-a", "pos2"]
  }

  /** The example vector holds no group, so expansion leaves it alone. */
  lemma DemoNoGroups()
    ensures Expand(DemoArgs()) == DemoArgs()
  {
    var args := DemoArgs();
    assert forall k :: 0 <= k < |args| ==> !IsGroup(args[k]) by {
      assert !IsGroup(args[0]) && !IsGroup(args[1]) && !IsGroup(args[2]) && !IsGroup(args[3]);
      assert !IsGroup(args[4]) && !IsGroup(args[5]) && !IsGroup(args[6]) && !IsGroup(args[7]);
    }
    ExpandNoGroups(args);
  }

  /** Flags, a value and positionals on both sides of `--`: the flags take
      their fixed values, the value option takes the token after it, and the
      sink receives the positionals and everything after `--`, with no error. */
  lemma DemoParse(a: BoolRef, b: BoolRef, c: StringBuilder, st: Store)
    requires a != b && st.sink.Some?
    ensures ParseSpec(DemoOptions(a, b, c), DemoArgs(), st) ==
      st.(flags := st.flags[a := true][b := false], buffers := st.buffers[c := "val"],
          sink := Some(st.sink.value + ["pos1", "-a", "pos2"]))
  {
    DemoNoGroups();
    var args := DemoArgs();
    var s2 := st.(flags := st.flags[a := true][b := false]);
    DemoFlags(a, b, c, args, st);
    DemoRest(a, b, c, args, s2);
  }

  /** The first two tokens of the example vector set the two flags. */
  lemma DemoFlags(a: BoolRef, b: BoolRef, c: StringBuilder, args: seq<string>, st: Store)
    requires a != b && |args| > 2 && args[0] == "-a" && args[1] == "--b-option"
    ensures Walk(DemoOptions(a, b, c), args, 0, true, st) ==
      Walk(DemoOptions(a, b, c), args, 2, true, st.(flags := st.flags[a := true][b := false]))
  {
    var opts := DemoOptions(a, b, c);
    DemoMatches(a, b, c);
    var s1 := st.(flags := st.flags[a := true]);
    FlagOption(opts, args, 0, 0, st);
    FlagOption(opts, args, 1, 1, s1);
  }

  /** The rest of the example vector: the value, a positional, the terminator
      and what follows it. */
  lemma DemoRest(a: BoolRef, b: BoolRef, c: StringBuilder, args: seq<string>, s2: Store)
    requires |args| == 8 && args[2] == "-c" && args[3] == "val" && args[4] == "pos1" && args[5] == "--"
    requires args[6..] == ["-a", "pos2"]
    requires s2.sink.Some?
    ensures Walk(DemoOptions(a, b, c), args, 2, true, s2) ==
      s2.(buffers := s2.buffers[c := "val"], sink := Some(s2.sink.value + ["pos1", "-a", "pos2"]))
  {
    var opts := DemoOptions(a, b, c);
    DemoMatches(a, b, c);
    var s3 := s2.(buffers := s2.buffers[c := "val"]);
    var s4 := TokenWalk.AddArgument(s3, "pos1");
    ValueOption(opts, args, 2, 2, s2);
    assert Walk(opts, args, 4, true, s3) == Walk(opts, args, 5, true, s4);
    Terminator(opts, args, 5, s4);
    assert s4 == s3.(sink := Some(s2.sink.value + ["pos1"]));
    assert s2.sink.value + ["pos1"] + ["-a", "pos2"] == s2.sink.value + ["pos1", "-a", "pos2"];
  }

  /** How the demo options are spelled. */
  lemma DemoForms(a: BoolRef, b: BoolRef, c: StringBuilder)
    ensures ShortForm(DemoOptions(a, b, c)[0]) == "-a" && LongForm(DemoOptions(a, b, c)[0]) == "--a-option"
    ensures ShortForm(DemoOptions(a, b, c)[1]) == "-b" && LongForm(DemoOptions(a, b, c)[1]) == "--b-option"
    ensures ShortForm(DemoOptions(a, b, c)[2]) == "-c" && LongForm(DemoOptions(a, b, c)[2]) == "--c-option"
  {
  }

  /** Which demo option each option token of the example vector selects. */
  lemma DemoMatches(a: BoolRef, b: BoolRef, c: StringBuilder)
    ensures forall m :: 0 <= m < 3 ==> (Matches(DemoOptions(a, b, c)[m], "-a") <==> m == 0)
    ensures forall m :: 0 <= m < 3 ==> (Matches(DemoOptions(a, b, c)[m], "--b-option") <==> m == 1)
    ensures forall m :: 0 <= m < 3 ==> (Matches(DemoOptions(a, b, c)[m], "-c") <==> m == 2)
  {
    DemoForms(a, b, c);
    assert "--b-option" != "--a-option" && "--b-option" != "--c-option";
  }

  /** A flag before a value option that is the last token: the flag is set,
      then the missing value is logged, the value target cleared, and the
      parse ends. */
  lemma FlagThenMissingValue(a: BoolRef, b: BoolRef, c: StringBuilder, st: Store)
    ensures ParseSpec(DemoOptions(a, b, c), ["-a", "-c"], st) ==
      st.(flags := st.flags[a := true], buffers := st.buffers[c := ""],
          errors := st.errors + [MissingValueError("-c")])
  {
    var args := ["-a", "-c"];
    ExpandNoGroups(args);
    FlagThenMissingValueWalk(a, b, c, args, st);
  }

  lemma FlagThenMissingValueWalk(a: BoolRef, b: BoolRef, c: StringBuilder, args: seq<string>, st: Store)
    requires |args| == 2 && args[0] == "-a" && args[1] == "-c"
    ensures Walk(DemoOptions(a, b, c), args, 0, true, st) ==
      st.(flags := st.flags[a := true], buffers := st.buffers[c := ""],
          errors := st.errors + [MissingValueError("-c")])
  {
    var opts := DemoOptions(a, b, c);
    DemoMatches(a, b, c);
    FlagOption(opts, args, 0, 0, st);
    MissingValue(opts, args, 1, 2, st.(flags := st.flags[a := true]));
  }

  /** An option-shaped token nothing matches is reported once and not added
      to the sink. */
  lemma UnknownShortOption(a: BoolRef, b: BoolRef, c: StringBuilder, st: Store)
    ensures ParseSpec(DemoOptions(a, b, c), ["-z"], st) == st.(errors := st.errors + ["Unknown argument: -z"])
  {
    var opts := DemoOptions(a, b, c);
    var args := ["-z"];
    ExpandNoGroups(args);
    assert ShortForm(opts[0]) == "-a" && ShortForm(opts[1]) == "-b" && ShortForm(opts[2]) == "-c";
    assert forall m :: 0 <= m < |opts| ==> |LongForm(opts[m])| > 2;
    UnknownToken(opts, args, 0, st);
    assert UnknownError("-z") == "Unknown argument: -z";
  }

  /** A grouped `-ab` parses exactly as `-a -b`. */
  lemma GroupedFlags(a: BoolRef, b: BoolRef, c: StringBuilder, st: Store)
    ensures ParseSpec(DemoOptions(a, b, c), ["-ab"], st) == ParseSpec(DemoOptions(a, b, c), ["-a", "-b"], st)
  {
    ParseGroup(DemoOptions(a, b, c), [], "-ab", [], st);
    assert IsGroup("-ab");
    ExpandTokenSpec("-ab");
    assert ExpandToken("-ab") == ["-a", "-b"];
    assert [] + ["-ab"] + [] == ["-ab"];
    assert [] + ["-a", "-b"] + [] == ["-a", "-b"];
  }

  /** After `-c` consumes its value, the registry entries after `-c` are
      compared against that value: here the value `-d` also switches on the
      `-d` flag. */
  lemma ValueRescanned(c: StringBuilder, d: BoolRef, st: Store)
    ensures Walk([Opt(Some('c'), None, Value(c)), Opt(Some('d'), None, Flag(d, true))], ["-c", "-d"], 0, true, st) ==
      st.(buffers := st.buffers[c := "-d"], flags := st.flags[d := true])
  {
    var opts := [Opt(Some('c'), None, Value(c)), Opt(Some('d'), None, Flag(d, true))];
    var args := ["-c", "-d"];
    assert ShortForm(opts[0]) == "-c" && ShortForm(opts[1]) == "-d";
    var s1 := st.(buffers := st.buffers[c := "-d"]);
    var s2 := s1.(flags := s1.flags[d := true]);
    assert Scan(opts, args, 1, 2, true, s2) == Continue(1, true, s2);
    assert Scan(opts, args, 1, 1, true, s1) == Continue(1, true, s2);
    assert Scan(opts, args, 0, 0, false, st) == Continue(1, true, s2);
  }

  /** An option without a long name spells its long form `--`. That token
      never reaches the registry on its own, but it can be the value a value
      option consumes, and then it matches: here it switches on `x`. */
  lemma NullLongNameMatchesConsumedTerminator(c: StringBuilder, x: BoolRef, st: Store)
    ensures Walk([Opt(Some('c'), None, Value(c)), Opt(Some('x'), None, Flag(x, true))], ["-c", "--"], 0, true, st) ==
      st.(buffers := st.buffers[c := "--"], flags := st.flags[x := true])
  {
    var opts := [Opt(Some('c'), None, Value(c)), Opt(Some('x'), None, Flag(x, true))];
    var args := ["-c", "--"];
    assert ShortForm(opts[0]) == "-c" && LongForm(opts[1]) == "--";
    var s1 := st.(buffers := st.buffers[c := "--"]);
    var s2 := s1.(flags := s1.flags[x := true]);
    assert Scan(opts, args, 1, 2, true, s2) == Continue(1, true, s2);
    assert Scan(opts, args, 1, 1, true, s1) == Continue(1, true, s2);
    assert Scan(opts, args, 0, 0, false, st) == Continue(1, true, s2);
  }

  /** Two flag options with the same short name: the scan does not stop at
      the first match, so both targets are written, in registry order. */
  lemma SameNameFlags(x: BoolRef, y: BoolRef, st: Store)
    requires x != y
    ensures ParseSpec([Opt(Some('q'), None, Flag(x, true)), Opt(Some('q'), None, Flag(y, false))], ["-q"], st) ==
      st.(flags := st.flags[x := true][y := false])
  {
    var opts := [Opt(Some('q'), None, Flag(x, true)), Opt(Some('q'), None, Flag(y, false))];
    var args := ["-q"];
    ExpandNoGroups(args);
    assert ShortForm(opts[0]) == "-q" && ShortForm(opts[1]) == "-q";
    assert Matches(opts[0], "-q");
    FlagsOnly(opts, args, 0, st);
    var f1 := st.flags[x := true];
    assert FlagWrites(opts, 1, "-q", f1) == f1[y := false];
    assert FlagWrites(opts, 0, "-q", st.flags) == f1[y := false];
    var s1 := st.(flags := f1[y := false]);
    assert Walk(opts, args, 1, true, s1) == s1;
  }

  /** Two flag options on one shared cell that the same token selects, with
      different values: the later entry's value is the one left in the cell.
      An entry on that cell that the token does not select has no effect. */
  lemma SharedCellLastWins(x: BoolRef, st: Store)
    ensures ParseSpec([Opt(Some('q'), None, Flag(x, true)), Opt(Some('r'), None, Flag(x, true)),
                       Opt(Some('q'), Some("quiet"), Flag(x, false))], ["-q"], st) ==
      st.(flags := st.flags[x := false])
  {
    var opts := [Opt(Some('q'), None, Flag(x, true)), Opt(Some('r'), None, Flag(x, true)),
                 Opt(Some('q'), Some("quiet"), Flag(x, false))];
    var args := ["-q"];
    ExpandNoGroups(args);
    assert ShortForm(opts[0]) == "-q" && ShortForm(opts[1]) == "-r" && ShortForm(opts[2]) == "-q";
    assert Matches(opts[0], "-q") && !Matches(opts[1], "-q") && Matches(opts[2], "-q");
    FlagsOnly(opts, args, 0, st);
    var f1 := st.flags[x := true];
    assert FlagWrites(opts, 3, "-q", f1[x := false]) == f1[x := false];
    assert FlagWrites(opts, 2, "-q", f1) == f1[x := false];
    assert FlagWrites(opts, 1, "-q", f1) == f1[x := false];
    assert FlagWrites(opts, 0, "-q", st.flags) == f1[x := false];
    assert f1[x := false] == st.flags[x := false];
    var s1 := st.(flags := st.flags[x := false]);
    assert Walk(opts, args, 1, true, s1) == s1;
  }

  /** Grouping runs over the whole vector before the walk, so a group after
      `--` is split too: the sink receives `-r` and `-f`, not `-rf`. */
  lemma GroupAfterTerminator(opts: seq<Opt>, st: Store)
    requires st.sink.Some?
    ensures ParseSpec(opts, ["--", "-rf"], st) == st.(sink := Some(st.sink.value + ["-r", "-f"]))
  {
    var xs := ["--", "-r", "-f"];
    ExpandAppend(["--"], ["-rf"]);
    assert ["--"] + ["-rf"] == ["--", "-rf"];
    assert !IsGroup("--") && IsGroup("-rf");
    assert Expand(["--"]) == ["--"] + Expand([]);
    ExpandTokenSpec("-rf");
    assert ExpandToken("-rf") == ["-r", "-f"];
    assert Expand(["-rf"]) == ExpandToken("-rf") + Expand([]);
    assert Expand(["--", "-rf"]) == xs;
    Terminator(opts, xs, 0, st);
    assert xs[1..] == ["-r", "-f"];
  }

  /** Grouping also splits a value that looks like a group: `-c -10` gives
      `c` the value `-1`, and the left-over `-0` is an unknown argument. */
  lemma GroupedValue(a: BoolRef, b: BoolRef, c: StringBuilder, st: Store)
    ensures ParseSpec(DemoOptions(a, b, c), ["-c", "-10"], st) ==
      st.(buffers := st.buffers[c := "-1"], errors := st.errors + ["Unknown argument: -0"])
  {
    var opts := DemoOptions(a, b, c);
    var xs := ["-c", "-1", "-0"];
    ExpandAppend(["-c"], ["-10"]);
    assert ["-c"] + ["-10"] == ["-c", "-10"];
    assert !IsGroup("-c") && IsGroup("-10");
    assert Expand(["-c"]) == ["-c"] + Expand([]);
    ExpandTokenSpec("-10");
    assert ExpandToken("-10") == ["-1", "-0"];
    assert Expand(["-10"]) == ExpandToken("-10") + Expand([]);
    assert Expand(["-c", "-10"]) == xs;
    DemoMatches(a, b, c);
    DemoForms(a, b, c);
    ValueOption(opts, xs, 0, 2, st);
    var s1 := st.(buffers := st.buffers[c := "-1"]);
    assert forall m :: 0 <= m < |opts| ==> !Matches(opts[m], "-0");
    UnknownToken(opts, xs, 2, s1);
    assert UnknownError("-0") == "Unknown argument: -0";
  }
}

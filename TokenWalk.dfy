/** The reference semantics of a parse, as functions over a value that records
    everything a parse can change: the contents of the shared flags and string
    buffers, the positional-argument sink, and the error log. */
module TokenWalk {
  import opened Wrappers
  import opened Cells
  import opened Registry
  import opened ShortGroups

  /** Everything a parse can change. `sink` is `None` when no argument list
      was given. */
  datatype Store = Store(
    flags: map<BoolRef, bool>,
    buffers: map<StringBuilder, string>,
    sink: Option<seq<string>>,
    errors: seq<string>)

  predicate StartsWithDash(t: string)
  {
    |t| > 0 && t[0] == '-'
  }

  /** A token compared against the registry while parsing is enabled: it
      starts with a dash and is neither `-` nor `--`. */
  predicate OptionShaped(t: string)
  {
    StartsWithDash(t) && t != "-" && t != "--"
  }

  /** A token bound for the sink: appended to it, or logged as an error when
      there is no sink. */
  function AddArgument(st: Store, a: string): Store
  {
    if st.sink.None? then st.(errors := st.errors + [NoListError(a)])
    else st.(sink := Some(st.sink.value + [a]))
  }

  /** Several tokens bound for the sink, in order. */
  function AddAll(st: Store, ts: seq<string>): Store
    decreases |ts|
  {
    if ts == [] then st else AddAll(AddArgument(st, ts[0]), ts[1..])
  }

  /** The errors logged for tokens that had no sink to go to. */
  function NoListErrors(ts: seq<string>): (r: seq<string>)
    ensures |r| == |ts|
  {
    seq(|ts|, k requires 0 <= k < |ts| => NoListError(ts[k]))
  }

  /** Appending a run of tokens extends the sink by exactly those tokens in
      order, or, with no sink, logs one error per token and leaves everything
      else alone. */
  lemma {:induction false} AddAllSpec(st: Store, ts: seq<string>)
    ensures st.sink.Some? ==> AddAll(st, ts) == st.(sink := Some(st.sink.value + ts))
    ensures st.sink.None? ==> AddAll(st, ts) == st.(errors := st.errors + NoListErrors(ts))
    decreases |ts|
  {
    if ts == [] {
      assert st.sink.Some? ==> st.sink.value + ts == st.sink.value;
      assert st.errors + NoListErrors(ts) == st.errors;
    } else {
      var st' := AddArgument(st, ts[0]);
      AddAllSpec(st', ts[1..]);
      if st.sink.Some? {
        assert st.sink.value + [ts[0]] + ts[1..] == st.sink.value + ts;
      } else {
        assert st.errors + [NoListError(ts[0])] + NoListErrors(ts[1..]) == st.errors + NoListErrors(ts);
      }
    }
  }

  /** How one registry scan ended: with the index of the last token it
      consumed, whether any option matched, and the store; or with the parse
      given up because a value option had no value. */
  datatype ScanResult =
    | Continue(at: nat, recognized: bool, store: Store)
    | Abort(store: Store)

  /** The effect of one matched option on the token at `i`: a flag takes its
      fixed value; a value option takes the next token as its whole content
      and moves the index onto it, or, at the last token, logs the missing
      value, clears its target and gives up the parse. */
  function Fire(o: Opt, args: seq<string>, i: nat, st: Store): (r: ScanResult)
    requires i < |args|
    ensures r.Continue? ==> r.at == (if o.binding.Value? then i + 1 else i) && r.at < |args| && r.recognized
    ensures r.Abort? <==> o.binding.Value? && i + 1 == |args|
  {
    match o.binding
    case Flag(b, v) =>
      Continue(i, true, st.(flags := st.flags[b := v]))
    case Value(sb) =>
      if i + 1 >= |args| then
        Abort(st.(errors := st.errors + [MissingValueError(args[i])], buffers := st.buffers[sb := ""]))
      else
        Continue(i + 1, true, st.(buffers := st.buffers[sb := args[i + 1]]))
  }

  /** The scan of registry entries `j..` for the token at `i`. Every entry is
      tried, even after a match, and an entry is compared against the token at
      the CURRENT index, which moves past the value a value option consumes. */
  function Scan(opts: seq<Opt>, args: seq<string>, i: nat, j: nat, recognized: bool, st: Store): (r: ScanResult)
    requires i < |args| && j <= |opts|
    ensures r.Continue? ==> i <= r.at < |args|
    ensures r.Continue? ==> r.recognized || r.at == i
    ensures r.Continue? && recognized ==> r.recognized
    decreases |opts| - j
  {
    if j == |opts| then Continue(i, recognized, st)
    else if !Matches(opts[j], args[i]) then Scan(opts, args, i, j + 1, recognized, st)
    else match Fire(opts[j], args, i, st)
      case Abort(s) => Abort(s)
      case Continue(k, _, s) => Scan(opts, args, k, j + 1, true, s)
  }

  /** The walk over the tokens from `i` on, with parsing enabled or (after
      `--`) disabled. An option-shaped token is scanned against the whole
      registry; if no entry matched, it is logged as unknown; the walk goes on
      after the last token the scan consumed, unless the scan gave up. */
  function Walk(opts: seq<Opt>, args: seq<string>, i: nat, parse: bool, st: Store): Store
    requires i <= |args|
    decreases |args| - i
  {
    if i == |args| then st
    else if !parse then Walk(opts, args, i + 1, false, AddArgument(st, args[i]))
    else if args[i] == "--" then Walk(opts, args, i + 1, false, st)
    else if args[i] == "-" then Walk(opts, args, i + 1, true, AddArgument(st, args[i]))
    else if !StartsWithDash(args[i]) then Walk(opts, args, i + 1, true, AddArgument(st, args[i]))
    else match Scan(opts, args, i, 0, false, st)
      case Abort(s) => s
      case Continue(k, rec, s) =>
        Walk(opts, args, k + 1, true, if rec then s else s.(errors := s.errors + [UnknownError(args[k])]))
  }

  /** A whole parse: short groups are expanded, then the walk starts at the
      first token with parsing enabled. */
  function ParseSpec(opts: seq<Opt>, args: seq<string>, st: Store): Store
  {
    Walk(opts, Expand(args), 0, true, st)
  }

  /** Once parsing is disabled every remaining token, whatever its shape, goes
      to the sink verbatim and in order. */
  lemma {:induction false} DisabledWalk(opts: seq<Opt>, args: seq<string>, i: nat, st: Store)
    requires i <= |args|
    ensures Walk(opts, args, i, false, st) == AddAll(st, args[i..])
    decreases |args| - i
  {
    if i < |args| {
      DisabledWalk(opts, args, i + 1, AddArgument(st, args[i]));
      assert args[i..][1..] == args[i + 1..];
    }
  }

  /** `--` is not itself emitted; every token after it, including further
      `--` and `-` and option-shaped tokens, reaches the sink verbatim. */
  lemma Terminator(opts: seq<Opt>, args: seq<string>, i: nat, st: Store)
    requires i < |args| && args[i] == "--"
    ensures Walk(opts, args, i, true, st) == AddAll(st, args[i + 1..])
    ensures st.sink.Some? ==> Walk(opts, args, i, true, st) == st.(sink := Some(st.sink.value + args[i + 1..]))
    ensures st.sink.None? ==> Walk(opts, args, i, true, st) == st.(errors := st.errors + NoListErrors(args[i + 1..]))
  {
    DisabledWalk(opts, args, i + 1, st);
    AddAllSpec(st, args[i + 1..]);
  }

  /** With parsing enabled, `-` and tokens not starting with a dash are
      positional: a run of them reaches the sink in order. */
  lemma {:induction false} PositionalsOnly(opts: seq<Opt>, args: seq<string>, i: nat, st: Store)
    requires i <= |args|
    requires forall k :: i <= k < |args| ==> args[k] == "-" || !StartsWithDash(args[k])
    ensures Walk(opts, args, i, true, st) == AddAll(st, args[i..])
    decreases |args| - i
  {
    if i < |args| {
      PositionalsOnly(opts, args, i + 1, AddArgument(st, args[i]));
      assert args[i..][1..] == args[i + 1..];
    }
  }

  /** A vector of positionals alone: with a sink, it receives all of them in
      their original order; without one, each logs exactly one error and the
      sink stays absent. */
  lemma PositionalParse(opts: seq<Opt>, args: seq<string>, st: Store)
    requires forall k :: 0 <= k < |args| ==> !StartsWithDash(args[k])
    ensures st.sink.Some? ==> ParseSpec(opts, args, st) == st.(sink := Some(st.sink.value + args))
    ensures st.sink.None? ==> ParseSpec(opts, args, st) == st.(errors := st.errors + NoListErrors(args))
  {
    ExpandNoGroups(args);
    PositionalsOnly(opts, args, 0, st);
    AddAllSpec(st, args);
    assert args[0..] == args;
  }

  /** Grouped short options may be expanded ahead of time: the parse is the
      same. */
  lemma ParseGroup(opts: seq<Opt>, pre: seq<string>, t: string, post: seq<string>, st: Store)
    ensures ParseSpec(opts, pre + [t] + post, st) == ParseSpec(opts, pre + ExpandToken(t) + post, st)
  {
    GroupEquivalence(pre, t, post);
  }

  /** Parsing an already expanded vector is the same as parsing the original. */
  lemma ParseExpanded(opts: seq<Opt>, args: seq<string>, st: Store)
    ensures ParseSpec(opts, Expand(args), st) == ParseSpec(opts, args, st)
  {
    ExpandIdempotent(args);
  }

  /** Registry entries that do not match the current token are skipped
      without effect. */
  lemma {:induction false} ScanSkip(opts: seq<Opt>, args: seq<string>, i: nat, j: nat, k: nat, rec: bool, st: Store)
    requires i < |args| && j <= k <= |opts|
    requires forall m :: j <= m < k ==> !Matches(opts[m], args[i])
    ensures Scan(opts, args, i, j, rec, st) == Scan(opts, args, i, k, rec, st)
    decreases k - j
  {
    if j < k {
      ScanSkip(opts, args, i, j + 1, k, rec, st);
    }
  }

  /** An option-shaped token that matches no registered option logs exactly
      one "Unknown argument" error and changes nothing else; the walk goes on
      with the next token. */
  lemma UnknownToken(opts: seq<Opt>, args: seq<string>, i: nat, st: Store)
    requires i < |args| && OptionShaped(args[i])
    requires forall m :: 0 <= m < |opts| ==> !Matches(opts[m], args[i])
    ensures Walk(opts, args, i, true, st) == Walk(opts, args, i + 1, true, st.(errors := st.errors + [UnknownError(args[i])]))
  {
    ScanSkip(opts, args, i, 0, |opts|, false, st);
  }

  /** A token matched by exactly one option, a flag, writes that flag's fixed
      value into its target and nothing else. */
  lemma FlagOption(opts: seq<Opt>, args: seq<string>, i: nat, k: nat, st: Store)
    requires i < |args| && OptionShaped(args[i])
    requires k < |opts| && opts[k].binding.Flag? && Matches(opts[k], args[i])
    requires forall m :: 0 <= m < |opts| && m != k ==> !Matches(opts[m], args[i])
    ensures Walk(opts, args, i, true, st) ==
      Walk(opts, args, i + 1, true, st.(flags := st.flags[opts[k].binding.flag := opts[k].binding.setTo]))
  {
    ScanSkip(opts, args, i, 0, k, false, st);
    var st' := st.(flags := st.flags[opts[k].binding.flag := opts[k].binding.setTo]);
    ScanSkip(opts, args, i, k + 1, |opts|, true, st');
  }

  /** The flags after every entry from `j` on that matches `t` and is a flag
      option has written its fixed value, in registry order. */
  function FlagWrites(opts: seq<Opt>, j: nat, t: string, flags: map<BoolRef, bool>): map<BoolRef, bool>
    requires j <= |opts|
    decreases |opts| - j
  {
    if j == |opts| then flags
    else if Matches(opts[j], t) && opts[j].binding.Flag? then
      FlagWrites(opts, j + 1, t, flags[opts[j].binding.flag := opts[j].binding.setTo])
    else FlagWrites(opts, j + 1, t, flags)
  }

  /** Some entry from `j` on matches `t`. */
  predicate AnyMatch(opts: seq<Opt>, j: nat, t: string)
  {
    exists m :: j <= m < |opts| && Matches(opts[m], t)
  }

  /** When every entry that matches the token is a flag option, the scan
      stays on the token, every matching entry writes its flag in registry
      order (there is no early break), and the token is recognized exactly
      when some entry matched. */
  lemma {:induction false} FlagsScan(opts: seq<Opt>, args: seq<string>, i: nat, j: nat, rec: bool, st: Store)
    requires i < |args| && j <= |opts|
    requires forall m :: j <= m < |opts| && Matches(opts[m], args[i]) ==> opts[m].binding.Flag?
    ensures Scan(opts, args, i, j, rec, st) ==
      Continue(i, rec || AnyMatch(opts, j, args[i]), st.(flags := FlagWrites(opts, j, args[i], st.flags)))
    decreases |opts| - j
  {
    if j < |opts| {
      if Matches(opts[j], args[i]) {
        var o := opts[j];
        FlagsScan(opts, args, i, j + 1, true, st.(flags := st.flags[o.binding.flag := o.binding.setTo]));
      } else {
        FlagsScan(opts, args, i, j + 1, rec, st);
        assert AnyMatch(opts, j, args[i]) == AnyMatch(opts, j + 1, args[i]);
      }
    }
  }

  /** A token that only flag options match, however many: each writes its
      fixed value into its target, in registry order, and the walk goes on
      with the next token. A token nothing matches is reported as unknown. */
  lemma FlagsOnly(opts: seq<Opt>, args: seq<string>, i: nat, st: Store)
    requires i < |args| && OptionShaped(args[i])
    requires forall m :: 0 <= m < |opts| && Matches(opts[m], args[i]) ==> opts[m].binding.Flag?
    ensures AnyMatch(opts, 0, args[i]) ==>
      Walk(opts, args, i, true, st) == Walk(opts, args, i + 1, true, st.(flags := FlagWrites(opts, 0, args[i], st.flags)))
    ensures !AnyMatch(opts, 0, args[i]) ==>
      Walk(opts, args, i, true, st) == Walk(opts, args, i + 1, true, st.(errors := st.errors + [UnknownError(args[i])]))
  {
    FlagsScan(opts, args, i, 0, false, st);
    if !AnyMatch(opts, 0, args[i]) {
      FlagWritesUntouched(opts, 0, args[i], st.flags);
    }
  }

  /** With no matching entry the flags are left as they were. */
  lemma {:induction false} FlagWritesUntouched(opts: seq<Opt>, j: nat, t: string, flags: map<BoolRef, bool>)
    requires j <= |opts| && !AnyMatch(opts, j, t)
    ensures FlagWrites(opts, j, t, flags) == flags
    decreases |opts| - j
  {
    if j < |opts| {
      assert !Matches(opts[j], t);
      FlagWritesUntouched(opts, j + 1, t, flags);
    }
  }

  /** On a cell that several matching flag options share, the last of them in
      registry order decides the value. */
  lemma {:induction false} FlagWritesLastWins(opts: seq<Opt>, j: nat, k: nat, t: string, flags: map<BoolRef, bool>)
    requires j <= k < |opts| && Matches(opts[k], t) && opts[k].binding.Flag?
    requires forall m :: k < m < |opts| && Matches(opts[m], t) && opts[m].binding.Flag? ==>
      opts[m].binding.flag != opts[k].binding.flag
    ensures opts[k].binding.flag in FlagWrites(opts, j, t, flags)
    ensures FlagWrites(opts, j, t, flags)[opts[k].binding.flag] == opts[k].binding.setTo
    decreases |opts| - j
  {
    if j < k {
      var f := if Matches(opts[j], t) && opts[j].binding.Flag? then flags[opts[j].binding.flag := opts[j].binding.setTo] else flags;
      FlagWritesLastWins(opts, j + 1, k, t, f);
    } else {
      FlagWritesKeep(opts, k + 1, t, flags[opts[k].binding.flag := opts[k].binding.setTo], opts[k].binding.flag);
    }
  }

  /** A cell that no matching flag option from `j` on writes keeps its
      value. */
  lemma {:induction false} FlagWritesKeep(opts: seq<Opt>, j: nat, t: string, flags: map<BoolRef, bool>, b: BoolRef)
    requires j <= |opts|
    requires forall m :: j <= m < |opts| && Matches(opts[m], t) && opts[m].binding.Flag? ==> opts[m].binding.flag != b
    ensures (b in FlagWrites(opts, j, t, flags)) == (b in flags)
    ensures b in flags ==> FlagWrites(opts, j, t, flags)[b] == flags[b]
    decreases |opts| - j
  {
    if j < |opts| {
      var f := if Matches(opts[j], t) && opts[j].binding.Flag? then flags[opts[j].binding.flag := opts[j].binding.setTo] else flags;
      FlagWritesKeep(opts, j + 1, t, f, b);
    }
  }

  /** A token matched by exactly one option, a value option, with a token
      after it: that following token becomes the target's whole content,
      uninterpreted, and the walk resumes after it. The later registry entries
      are compared against the consumed token, so none of them may match it
      for the token to be consumed without effect. */
  lemma ValueOption(opts: seq<Opt>, args: seq<string>, i: nat, k: nat, st: Store)
    requires i + 1 < |args| && OptionShaped(args[i])
    requires k < |opts| && opts[k].binding.Value? && Matches(opts[k], args[i])
    requires forall m :: 0 <= m < k ==> !Matches(opts[m], args[i])
    requires forall m :: k < m < |opts| ==> !Matches(opts[m], args[i + 1])
    ensures Walk(opts, args, i, true, st) ==
      Walk(opts, args, i + 2, true, st.(buffers := st.buffers[opts[k].binding.buffer := args[i + 1]]))
  {
    ScanSkip(opts, args, i, 0, k, false, st);
    var st' := st.(buffers := st.buffers[opts[k].binding.buffer := args[i + 1]]);
    ScanSkip(opts, args, i + 1, k + 1, |opts|, true, st');
  }

  /** A value option that is the last token logs one "requires an argument"
      error, clears its target, and ends the parse: nothing else is
      processed. */
  lemma MissingValue(opts: seq<Opt>, args: seq<string>, i: nat, k: nat, st: Store)
    requires i + 1 == |args| && OptionShaped(args[i])
    requires k < |opts| && opts[k].binding.Value? && Matches(opts[k], args[i])
    requires forall m :: 0 <= m < k ==> !Matches(opts[m], args[i])
    ensures Walk(opts, args, i, true, st) ==
      st.(errors := st.errors + [MissingValueError(args[i])], buffers := st.buffers[opts[k].binding.buffer := ""])
  {
    ScanSkip(opts, args, i, 0, k, false, st);
  }

  /** The error log and the sink only grow: a parse keeps what they held as a
      prefix, and never gives or takes away the sink. */
  predicate Grows(before: Store, after: Store)
  {
    before.errors <= after.errors &&
    before.sink.Some? == after.sink.Some? &&
    (before.sink.Some? ==> before.sink.value <= after.sink.value)
  }

  lemma {:induction false} ScanGrows(opts: seq<Opt>, args: seq<string>, i: nat, j: nat, rec: bool, st: Store)
    requires i < |args| && j <= |opts|
    ensures Grows(st, Scan(opts, args, i, j, rec, st).store)
    decreases |opts| - j
  {
    if j < |opts| {
      if Matches(opts[j], args[i]) {
        var r := Fire(opts[j], args, i, st);
        if r.Continue? {
          ScanGrows(opts, args, r.at, j + 1, true, r.store);
        }
      } else {
        ScanGrows(opts, args, i, j + 1, rec, st);
      }
    }
  }

  /** Every walk keeps the earlier errors and sink contents as a prefix. */
  lemma {:induction false} WalkGrows(opts: seq<Opt>, args: seq<string>, i: nat, parse: bool, st: Store)
    requires i <= |args|
    ensures Grows(st, Walk(opts, args, i, parse, st))
    decreases |args| - i
  {
    if i < |args| {
      if !parse || args[i] == "-" || !StartsWithDash(args[i]) {
        WalkGrows(opts, args, i + 1, parse, AddArgument(st, args[i]));
      } else if args[i] == "--" {
        WalkGrows(opts, args, i + 1, false, st);
      } else {
        var r := Scan(opts, args, i, 0, false, st);
        ScanGrows(opts, args, i, 0, false, st);
        if r.Continue? {
          var s := if r.recognized then r.store else r.store.(errors := r.store.errors + [UnknownError(args[r.at])]);
          WalkGrows(opts, args, r.at + 1, true, s);
        }
      }
    }
  }

  /** A parse keeps the earlier errors and sink contents as a prefix. */
  lemma ParseGrows(opts: seq<Opt>, args: seq<string>, st: Store)
    ensures Grows(st, ParseSpec(opts, args, st))
  {
    WalkGrows(opts, Expand(args), 0, true, st);
  }
}

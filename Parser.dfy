/** The parser object: a registry of options, an optional positional-argument
    list owned by the caller, and the error log, with `Parse` walking a token
    vector and writing through the registered references. */
module Parser {
  import opened Wrappers
  import opened Cells
  import opened Registry
  import opened ShortGroups
  import opened TokenWalk

  /** The boolean cells the registry writes to. */
  function FlagCells(opts: seq<Opt>): set<BoolRef>
  {
    set k | 0 <= k < |opts| && opts[k].binding.Flag? :: opts[k].binding.flag
  }

  /** The string buffers the registry writes to. */
  function BufferCells(opts: seq<Opt>): set<StringBuilder>
  {
    set k | 0 <= k < |opts| && opts[k].binding.Value? :: opts[k].binding.buffer
  }

  /** The contents of a set of flags. */
  ghost function FlagValues(cells: set<BoolRef>): map<BoolRef, bool>
    reads cells
  {
    map b | b in cells :: b.value
  }

  /** The contents of a set of string buffers. */
  ghost function BufferContents(cells: set<StringBuilder>): map<StringBuilder, string>
    reads cells
  {
    map sb | sb in cells :: sb.content
  }

  /** The contents of the argument list, if there is one. */
  ghost function SinkOf(list: StringList?): Option<seq<string>>
    reads list
  {
    if list == null then None else Some(list.items)
  }

  class ArgumentParser {
    /** The error log, the only channel through which problems are reported. */
    var errors: seq<string>
    /** The registry, in the order options were added. */
    var options: seq<Opt>
    /** The caller's list for positional arguments; null until one is given. */
    var arguments: StringList?

    /** What the parser can change, read from the heap: the contents of every
        registered flag and buffer, of the argument list, and the error log. */
    ghost function Snapshot(): Store
      reads this, FlagCells(options), BufferCells(options), arguments
    {
      Store(FlagValues(FlagCells(options)), BufferContents(BufferCells(options)), SinkOf(arguments), errors)
    }

    constructor ()
      ensures options == [] && errors == [] && arguments == null
    {
      options := [];
      errors := [];
      arguments := null;
    }

    /** Registers an option that sets `variable` to true; a null target is
        logged and nothing is registered. */
    method AddOnOption(shortName: Option<char>, longName: Option<string>, variable: BoolRef?)
      modifies this
      ensures arguments == old(arguments)
      ensures variable == null ==>
        errors == old(errors) + [NullOnTargetError(shortName, longName)] && options == old(options)
      ensures variable != null ==>
        errors == old(errors) && options == old(options) + [Opt(shortName, longName, Flag(variable, true))]
    {
      if variable == null {
        errors := errors + [NullOnTargetError(shortName, longName)];
        return;
      }
      options := options + [Opt(shortName, longName, Flag(variable, true))];
    }

    /** Registers an option that sets `variable` to false; a null target is
        logged and nothing is registered. */
    method AddOffOption(shortName: Option<char>, longName: Option<string>, variable: BoolRef?)
      modifies this
      ensures arguments == old(arguments)
      ensures variable == null ==>
        errors == old(errors) + [NullTargetError(shortName, longName)] && options == old(options)
      ensures variable != null ==>
        errors == old(errors) && options == old(options) + [Opt(shortName, longName, Flag(variable, false))]
    {
      if variable == null {
        errors := errors + [NullTargetError(shortName, longName)];
        return;
      }
      options := options + [Opt(shortName, longName, Flag(variable, false))];
    }

    /** Registers an option whose following token is stored in `variable`; a
        null target is logged and nothing is registered. */
    method AddValueOption(shortName: Option<char>, longName: Option<string>, variable: StringBuilder?)
      modifies this
      ensures arguments == old(arguments)
      ensures variable == null ==>
        errors == old(errors) + [NullTargetError(shortName, longName)] && options == old(options)
      ensures variable != null ==>
        errors == old(errors) && options == old(options) + [Opt(shortName, longName, Value(variable))]
    {
      if variable == null {
        errors := errors + [NullTargetError(shortName, longName)];
        return;
      }
      options := options + [Opt(shortName, longName, Value(variable))];
    }

    /** Gives (or, with null, takes away) the list positional arguments go to. */
    method AddArgumentList(list: StringList?)
      modifies this
      ensures arguments == list && options == old(options) && errors == old(errors)
    {
      arguments := list;
    }

    /** Sends one token to the argument list, or logs that there is none. */
    method AddArgument(argument: string)
      modifies this, arguments
      ensures options == old(options) && arguments == old(arguments)
      ensures Snapshot() == TokenWalk.AddArgument(old(Snapshot()), argument)
    {
      if arguments == null {
        errors := errors + [NoListError(argument)];
        return;
      }
      arguments.Add(argument);
    }

    /** Splits every grouped short option into single short options. */
    method ExpandShortGroups(args: seq<string>) returns (r: seq<string>)
      ensures r == Expand(args)
    {
      r := [];
      var i := 0;
      while i < |args|
        invariant 0 <= i <= |args|
        invariant r == Expand(args[..i])
      {
        var t := args[i];
        ghost var before := r;
        ghost var pieces := ExpandToken(t);
        if |t| > 2 && t[0] == '-' && t[1] != '-' {
          assert |pieces| == |t| - 1;
          var j := 1;
          while j < |t|
            invariant 1 <= j <= |t|
            invariant r == before + pieces[..j - 1]
          {
            assert pieces[..j] == pieces[..j - 1] + ["-" + [t[j]]];
            r := r + ["-" + [t[j]]];
            j := j + 1;
          }
          assert pieces[..|t| - 1] == pieces;
        } else {
          r := r + [t];
        }
        ExpandAppend(args[..i], [t]);
        assert args[..i + 1] == args[..i] + [t];
        assert Expand([t]) == ExpandToken(t) + Expand([]);
        i := i + 1;
      }
      assert args[..|args|] == args;
    }

    /** Writes a matched flag option's fixed value through its target. */
    method FireFlag(b: BoolRef, v: bool)
      requires b in FlagCells(options)
      modifies b
      ensures Snapshot() == old(Snapshot()).(flags := old(Snapshot()).flags[b := v])
    {
      ghost var s := Snapshot();
      b.value := v;
      assert Snapshot().flags == s.flags[b := v];
    }

    /** Gives a matched value option the token after the one at `i0`, or, when
        there is none, logs the missing value and clears the target. */
    method FireValue(sb: StringBuilder, xs: seq<string>, i0: nat) returns (i: nat, abort: bool)
      requires i0 < |xs| && sb in BufferCells(options)
      modifies this, sb
      ensures options == old(options) && arguments == old(arguments)
      ensures abort <==> i0 + 1 == |xs|
      ensures abort ==> Snapshot() == old(Snapshot()).(
        errors := old(errors) + [MissingValueError(xs[i0])], buffers := old(Snapshot()).buffers[sb := ""])
      ensures !abort ==> i == i0 + 1 && Snapshot() == old(Snapshot()).(buffers := old(Snapshot()).buffers[sb := xs[i]])
    {
      ghost var s := Snapshot();
      i, abort := i0, false;
      if i + 1 >= |xs| {
        errors := errors + [MissingValueError(xs[i])];
        sb.Clear();
        assert Snapshot().buffers == s.buffers[sb := ""];
        abort := true;
        return;
      }
      i := i + 1;
      sb.Clear();
      sb.Append(xs[i]);
      assert sb.content == xs[i];
      assert Snapshot().buffers == s.buffers[sb := xs[i]];
    }

    /** One scan of the whole registry for the token at `i`: every option
        whose spelling equals the token at the current index fires, and a value
        option moves the index onto the token it consumes. `abort` reports a
        value option with no token left for it. */
    method ScanOptions(xs: seq<string>, i0: nat) returns (i: nat, recognized: bool, abort: bool)
      requires i0 < |xs|
      modifies this, FlagCells(options), BufferCells(options)
      ensures options == old(options) && arguments == old(arguments)
      ensures abort <==> Scan(options, xs, i0, 0, false, old(Snapshot())).Abort?
      ensures Snapshot() == Scan(options, xs, i0, 0, false, old(Snapshot())).store
      ensures !abort ==> Scan(options, xs, i0, 0, false, old(Snapshot())) == Continue(i, recognized, Snapshot())
    {
      ghost var start := old(Snapshot());
      i, recognized, abort := i0, false, false;
      var j := 0;
      while j < |options|
        invariant j <= |options| && i0 <= i < |xs|
        invariant options == old(options) && arguments == old(arguments)
        invariant Scan(options, xs, i, j, recognized, Snapshot()) == Scan(options, xs, i0, 0, false, start)
      {
        var opt := options[j];
        if xs[i] == "-" + ShortText(opt.shortName) || xs[i] == "--" + LongText(opt.longName) {
          recognized := true;
          match opt.binding
          case Flag(b, v) =>
            FireFlag(b, v);
          case Value(sb) =>
            i, abort := FireValue(sb, xs, i);
            if abort {
              return;
            }
        }
        j := j + 1;
      }
    }

    /** Handles an option-shaped token at `i0`: the registry scan, then an
        "Unknown argument" error when nothing matched. `i` is the index of the
        last token consumed; `abort` means the parse must stop here. */
    method ParseOption(xs: seq<string>, i0: nat) returns (i: nat, abort: bool)
      requires i0 < |xs| && OptionShaped(xs[i0])
      modifies this, FlagCells(options), BufferCells(options)
      ensures options == old(options) && arguments == old(arguments)
      ensures abort ==> Snapshot() == Walk(options, xs, i0, true, old(Snapshot()))
      ensures !abort ==> i0 <= i < |xs|
      ensures !abort ==> Walk(options, xs, i0, true, old(Snapshot())) == Walk(options, xs, i + 1, true, Snapshot())
    {
      var recognized;
      i, recognized, abort := ScanOptions(xs, i0);
      if abort {
        return;
      }
      ghost var scanned := Snapshot();
      if !recognized {
        errors := errors + [UnknownError(xs[i])];
      }
      assert Snapshot() == if recognized then scanned else scanned.(errors := scanned.errors + [UnknownError(xs[i])]);
    }

    /** Handles the token at `i0`. With parsing enabled, `--` disables it,
        `-` and tokens not starting with a dash go to the argument list, and
        any other token is matched against the registry; with parsing
        disabled, every token goes to the argument list. `i` is the index of
        the last token consumed; `abort` means the parse must stop here. */
    method ParseToken(xs: seq<string>, i0: nat, parse0: bool) returns (i: nat, parse: bool, abort: bool)
      requires i0 < |xs|
      modifies this, FlagCells(options), BufferCells(options), arguments
      ensures options == old(options) && arguments == old(arguments)
      ensures abort ==> Snapshot() == Walk(options, xs, i0, parse0, old(Snapshot()))
      ensures !abort ==> i0 <= i < |xs|
      ensures !abort ==> Walk(options, xs, i0, parse0, old(Snapshot())) == Walk(options, xs, i + 1, parse, Snapshot())
    {
      ghost var before := Snapshot();
      i, parse, abort := i0, parse0, false;
      if parse {
        if xs[i] == "--" {
          parse := false;
          return;
        } else if xs[i] == "-" {
          AddArgument(xs[i]);
          return;
        } else if !StartsWithDash(xs[i]) {
          AddArgument(xs[i]);
          return;
        }
        i, abort := ParseOption(xs, i);
      } else {
        AddArgument(xs[i]);
      }
    }

    /** Parses a token vector against the registry: the flags, buffers,
        argument list and error log end up as the reference semantics says
        (so, by `ParseGrows`, the error log and the argument list keep their
        earlier entries). */
    method Parse(args: seq<string>)
      modifies this, FlagCells(options), BufferCells(options), arguments
      ensures options == old(options) && arguments == old(arguments)
      ensures Snapshot() == ParseSpec(options, args, old(Snapshot()))
    {
      var xs := ExpandShortGroups(args);
      ghost var goal := Walk(options, xs, 0, true, Snapshot());
      var parse := true;
      var i := 0;
      while i < |xs|
        invariant i <= |xs|
        invariant options == old(options) && arguments == old(arguments)
        invariant Walk(options, xs, i, parse, Snapshot()) == goal
        decreases |xs| - i
      {
        var abort;
        i, parse, abort := ParseToken(xs, i, parse);
        if abort {
          return;
        }
        i := i + 1;
      }
    }
  }
}

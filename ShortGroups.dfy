/** Expansion of grouped short options: `-xyz` stands for `-x -y -z`. */
module ShortGroups {

  /** A grouped short-option token: longer than two characters, a leading
      dash, and a second character that is not a dash. */
  predicate IsGroup(t: string)
  {
    |t| > 2 && t[0] == '-' && t[1] != '-'
  }

  /** The tokens one input token stands for: one `-c` for every character
      after the leading dash of a group, the token itself otherwise. */
  function ExpandToken(t: string): (r: seq<string>)
  {
    if IsGroup(t) then seq(|t| - 1, k requires 0 <= k < |t| - 1 => "-" + [t[k + 1]])
    else [t]
  }

  /** The whole token vector after expansion, in order. */
  function Expand(args: seq<string>): seq<string>
  {
    if args == [] then [] else ExpandToken(args[0]) + Expand(args[1..])
  }

  /** A group `-xyz` becomes exactly `-x`, `-y`, `-z` in order; any other
      token is passed through on its own. */
  lemma ExpandTokenSpec(t: string)
    ensures IsGroup(t) ==> |ExpandToken(t)| == |t| - 1
    ensures IsGroup(t) ==> forall k :: 0 <= k < |t| - 1 ==> ExpandToken(t)[k] == ['-', t[k + 1]]
    ensures !IsGroup(t) ==> ExpandToken(t) == [t]
  {
    if IsGroup(t) {
      forall k | 0 <= k < |t| - 1
        ensures ExpandToken(t)[k] == ['-', t[k + 1]]
      {
        assert ExpandToken(t)[k] == "-" + [t[k + 1]];
      }
    }
  }

  /** Expansion works token by token, so it distributes over concatenation. */
  lemma {:induction false} ExpandAppend(a: seq<string>, b: seq<string>)
    ensures Expand(a + b) == Expand(a) + Expand(b)
  {
    if a == [] {
      assert a + b == b;
    } else {
      assert (a + b)[0] == a[0];
      assert (a + b)[1..] == a[1..] + b;
      ExpandAppend(a[1..], b);
    }
  }

  /** Every token expansion emits is either an input token that is not a
      group or a two-character `-c`; so no emitted token is a group. */
  lemma {:induction false} ExpandShape(args: seq<string>)
    ensures forall k :: 0 <= k < |Expand(args)| ==>
      (Expand(args)[k] in args && !IsGroup(Expand(args)[k])) ||
      (|Expand(args)[k]| == 2 && Expand(args)[k][0] == '-')
    ensures forall k :: 0 <= k < |Expand(args)| ==> !IsGroup(Expand(args)[k])
  {
    if args != [] {
      ExpandShape(args[1..]);
      ExpandTokenSpec(args[0]);
      var e := Expand(args);
      var h := ExpandToken(args[0]);
      assert e == h + Expand(args[1..]);
      forall k | 0 <= k < |e|
        ensures (e[k] in args && !IsGroup(e[k])) || (|e[k]| == 2 && e[k][0] == '-')
      {
        if k >= |h| {
          assert e[k] == Expand(args[1..])[k - |h|];
        }
      }
    }
  }

  /** A vector without groups is left as it is. */
  lemma {:induction false} ExpandNoGroups(args: seq<string>)
    requires forall k :: 0 <= k < |args| ==> !IsGroup(args[k])
    ensures Expand(args) == args
  {
    if args != [] {
      ExpandNoGroups(args[1..]);
      assert args == [args[0]] + args[1..];
    }
  }

  /** Expansion is idempotent. */
  lemma ExpandIdempotent(args: seq<string>)
    ensures Expand(Expand(args)) == Expand(args)
  {
    ExpandShape(args);
    ExpandNoGroups(Expand(args));
  }

  /** Expanding a group in place before parsing changes nothing: a vector that
      holds `-xyz` expands to the same as one holding `-x -y -z`. */
  lemma GroupEquivalence(pre: seq<string>, t: string, post: seq<string>)
    ensures Expand(pre + [t] + post) == Expand(pre + ExpandToken(t) + post)
  {
    ExpandAppend(pre + [t], post);
    ExpandAppend(pre, [t]);
    ExpandAppend(pre + ExpandToken(t), post);
    ExpandAppend(pre, ExpandToken(t));
    ExpandShape([t]);
    assert Expand([t]) == ExpandToken(t) + Expand([]);
    ExpandNoGroups(ExpandToken(t));
  }
}

/** The command line segmenter of argument-parser.c. */
module ArgumentParsing {
  import opened Words

  /** A command: its long and short names, empty if it has none; its handler is its position. */
  datatype Arg = Arg(longArg: string, shortArg: string)

  /** What a run does: an item that belongs to no command, or a command called with its arguments. */
  datatype Event = Stray(item: string) | Call(handler: nat, command: string, args: seq<string>)

  type Keys = map<string, nat>

  // ---------------------------------------------------------------- the key set

  /** The names of a command, as they are inserted. */
  function NamesOf(arg: Arg): seq<string> {
    (if arg.longArg != "" then [arg.longArg] else []) + (if arg.shortArg != "" then [arg.shortArg] else [])
  }

  function Names(args: seq<Arg>): seq<string> {
    if args == [] then [] else Names(args[..|args| - 1]) + NamesOf(args[|args| - 1])
  }

  /** The keys are the names inserted so far, each bound to a command that bears it. */
  ghost predicate Binds(keys: Keys, names: seq<string>, args: seq<Arg>) {
    && (forall key :: key in keys <==> key in names)
    && (forall key :: key in keys ==> keys[key] < |args| && key in NamesOf(args[keys[key]]))
    && Distinct(names)
  }

  /** The names can be entered into a map one after the other: no two are equal, and the map has room
      for each. */
  ghost predicate Insertable(names: seq<string>, fits: string -> bool) {
    Distinct(names) && forall name :: name in names ==> fits(name)
  }

  /** `map_insert`, which refuses a key it has.  `fits` tells for which names memory suffices. */
  method Insert(keys: Keys, name: string, fits: string -> bool, handler: nat,
                ghost names: seq<string>, ghost args: seq<Arg>)
    returns (ok: bool, next: Keys)
    requires Binds(keys, names, args) && Insertable(names, fits)
    requires handler < |args| && name in NamesOf(args[handler])
    ensures ok <==> Insertable(names + [name], fits)
    ensures ok ==> Binds(next, names + [name], args)
  {
    ghost var more := names + [name];
    assert forall key :: key in more <==> key in names || key == name;
    if name in keys {
      ghost var i :| 0 <= i < |names| && names[i] == name;
      assert more[i] == more[|names|];
      return false, keys;
    }
    if !fits(name) {
      assert more[|names|] == name;
      return false, keys;
    }
    assert forall i :: 0 <= i < |names| ==> names[i] in keys;
    return true, keys[name := handler];
  }

  lemma MoreNames(names: seq<string>, more: seq<string>, fits: string -> bool)
    requires !Insertable(names, fits)
    ensures !Insertable(names + more, fits)
  {
    if Distinct(names) {
      var name :| name in names && !fits(name);
      assert name in names + more;
    } else {
      var i, j :| 0 <= i < j < |names| && names[i] == names[j];
      assert (names + more)[i] == (names + more)[j];
    }
  }

  lemma {:induction false} NamesPrefix(args: seq<Arg>, n: nat)
    requires n <= |args|
    ensures exists more :: Names(args) == Names(args[..n]) + more
  {
    if n == |args| {
      assert args[..n] == args && Names(args) == Names(args) + [];
    } else {
      var e := |args| - 1;
      NamesPrefix(args[..e], n);
      var more :| Names(args[..e]) == Names(args[..e][..n]) + more;
      assert args[..e][..n] == args[..n];
      assert Names(args) == Names(args[..n]) + (more + NamesOf(args[e]));
    }
  }

  /** One round of the loop in `argument_parser_init`. */
  method InsertNames(keys: Keys, args: seq<Arg>, fits: string -> bool, n: nat, ghost names: seq<string>)
    returns (ok: bool, next: Keys)
    requires Binds(keys, names, args) && Insertable(names, fits) && n < |args|
    ensures ok <==> Insertable(names + NamesOf(args[n]), fits)
    ensures ok ==> Binds(next, names + NamesOf(args[n]), args)
  {
    ok, next := true, keys;
    ghost var long := if args[n].longArg != "" then [args[n].longArg] else [];
    ghost var short := if args[n].shortArg != "" then [args[n].shortArg] else [];
    assert names + NamesOf(args[n]) == (names + long) + short;
    assert names + [] == names && (names + long) + [] == names + long;
    if args[n].longArg != "" {
      ok, next := Insert(keys, args[n].longArg, fits, n, names, args);
      if !ok {
        MoreNames(names + long, short, fits);
        return;
      }
    }
    if args[n].shortArg != "" {
      ok, next := Insert(next, args[n].shortArg, fits, n, names + long, args);
    }
  }

  // The same in terms of the fields.

  /** `name` is the long or the short name of the command. */
  ghost predicate Bears(arg: Arg, name: string) {
    name != "" && (name == arg.longArg || name == arg.shortArg)
  }

  /** No two names are equal. */
  ghost predicate Unambiguous(args: seq<Arg>) {
    && (forall i :: 0 <= i < |args| && args[i].longArg == args[i].shortArg ==> args[i].longArg == "")
    && (forall i, j, name :: 0 <= i < j < |args| && Bears(args[i], name) ==> !Bears(args[j], name))
  }

  lemma NamesOfAre(arg: Arg, name: string)
    ensures name in NamesOf(arg) <==> Bears(arg, name)
    ensures Distinct(NamesOf(arg)) <==> arg.longArg != arg.shortArg || arg.longArg == ""
  {
    assert NamesOf(arg) ==
           if arg.longArg == "" && arg.shortArg == "" then []
           else if arg.longArg == "" then [arg.shortArg]
           else if arg.shortArg == "" then [arg.longArg]
           else [arg.longArg, arg.shortArg];
    if arg.longArg != "" && arg.shortArg != "" {
      assert NamesOf(arg)[0] == arg.longArg && NamesOf(arg)[1] == arg.shortArg;
    }
  }

  lemma {:induction false} NamesAre(args: seq<Arg>, name: string)
    ensures name in Names(args) <==> exists i :: 0 <= i < |args| && Bears(args[i], name)
  {
    hide NamesOf, Bears;
    if args != [] {
      var e := |args| - 1;
      NamesAre(args[..e], name);
      NamesOfAre(args[e], name);
      if i :| 0 <= i < |args| && Bears(args[i], name) {
        assert i < e ==> args[..e][i] == args[i];
      }
    }
  }

  lemma {:induction false} NamesDistinct(args: seq<Arg>)
    ensures Distinct(Names(args)) <==> Unambiguous(args)
  {
    if args != [] {
      var e := |args| - 1;
      NamesDistinct(args[..e]);
      DistinctConcat(Names(args[..e]), NamesOf(args[e]));
      hide NamesOf, Bears, Distinct;
      NamesOfAre(args[e], "");
      forall name
        ensures name in NamesOf(args[e]) <==> Bears(args[e], name)
        ensures name in Names(args[..e]) <==> exists i :: 0 <= i < e && Bears(args[i], name)
      {
        NamesOfAre(args[e], name);
        NamesAre(args[..e], name);
        assert forall i :: 0 <= i < e ==> args[..e][i] == args[i];
      }
      UnambiguousSnoc(args);
    }
  }

  lemma UnambiguousSnoc(args: seq<Arg>)
    requires args != []
    ensures var e := |args| - 1;
            Unambiguous(args) <==>
            && Unambiguous(args[..e]) && (args[e].longArg == args[e].shortArg ==> args[e].longArg == "")
            && forall name :: Bears(args[e], name) ==> !exists i :: 0 <= i < e && Bears(args[i], name)
  {
    hide Bears;
    var e := |args| - 1;
    assert forall i :: 0 <= i < e ==> args[..e][i] == args[i];
  }

  /** `argument_parser_init`: it succeeds exactly if the map can be made, no two names are equal and
      the map has room for each.  Then the keys are exactly the long and short names that are not empty,
      and each is bound to the command that bears it. */
  method Init(args: seq<Arg>, init: bool, fits: string -> bool) returns (ok: bool, keys: Keys)
    ensures ok <==> init && Unambiguous(args)
                    && forall i, name :: 0 <= i < |args| && Bears(args[i], name) ==> fits(name)
    ensures ok ==> forall key :: key in keys <==> exists i :: 0 <= i < |args| && Bears(args[i], key)
    ensures ok ==> forall key :: key in keys ==> keys[key] < |args| && Bears(args[keys[key]], key)
  {
    ok, keys := init, map[];
    if init {
      ok, keys := InsertAll(args, fits);
    }
    InsertedAre(args, fits, keys);
  }

  lemma InsertedAre(args: seq<Arg>, fits: string -> bool, keys: Keys)
    ensures Insertable(Names(args), fits) <==>
            Unambiguous(args) && forall i, name :: 0 <= i < |args| && Bears(args[i], name) ==> fits(name)
    ensures Binds(keys, Names(args), args) ==>
              && (forall key :: key in keys <==> exists i :: 0 <= i < |args| && Bears(args[i], key))
              && (forall key :: key in keys ==> keys[key] < |args| && Bears(args[keys[key]], key))
  {
    NamesDistinct(args);
    hide Names, NamesOf, Bears, Distinct, Unambiguous;
    forall name
      ensures name in Names(args) <==> exists i :: 0 <= i < |args| && Bears(args[i], name)
    {
      NamesAre(args, name);
    }
    forall i, name | 0 <= i < |args|
      ensures name in NamesOf(args[i]) <==> Bears(args[i], name)
    {
      NamesOfAre(args[i], name);
    }
  }

  /** The loop over the commands. */
  method InsertAll(args: seq<Arg>, fits: string -> bool) returns (ok: bool, keys: Keys)
    ensures ok <==> Insertable(Names(args), fits)
    ensures ok ==> Binds(keys, Names(args), args)
  {
    ok, keys := true, map[];
    var i := 0;
    assert args[..0] == [];
    while i < |args|
      invariant i <= |args| && Binds(keys, Names(args[..i]), args) && Insertable(Names(args[..i]), fits)
    {
      assert args[..i + 1][..i] == args[..i];
      ok, keys := InsertNames(keys, args, fits, i, Names(args[..i]));
      i := i + 1;
      if !ok {
        NamesPrefix(args, i);
        ghost var more :| Names(args) == Names(args[..i]) + more;
        MoreNames(Names(args[..i]), more, fits);
        return;
      }
    }
    assert args[..i] == args;
    ok := true;
  }

  // ---------------------------------------------------------------- segmentation

  /** The number of items before the first command name. */
  function Plain(argv: seq<string>, keys: Keys): (n: nat)
    ensures n <= |argv|
    ensures forall i :: 0 <= i < n ==> argv[i] !in keys
    ensures n < |argv| ==> argv[n] in keys
  {
    if argv == [] || argv[0] in keys then 0 else 1 + Plain(argv[1..], keys)
  }

  function Segment(argv: seq<string>, keys: Keys): seq<Event>
    decreases |argv|
  {
    if argv == [] then []
    else if argv[0] !in keys then [Stray(argv[0])] + Segment(argv[1..], keys)
    else
      var n := Plain(argv[1..], keys);
      [Call(keys[argv[0]], argv[0], argv[1..n + 1])] + Segment(argv[n + 1..], keys)
  }

  /** The items handed to the default handler. */
  function Strays(trace: seq<Event>): seq<string> {
    if trace == [] then []
    else (if trace[0].Stray? then [trace[0].item] else []) + Strays(trace[1..])
  }

  /** `argument_parser_run`: the events in the order in which they happen, and the items handed to
      the default handler, if there is one. */
  method Run(argv: seq<string>, keys: Keys, hasDefault: bool) returns (trace: seq<Event>, handled: seq<string>)
    ensures trace == Segment(argv, keys)
    ensures handled == if hasDefault then Strays(trace) else []
  {
    hide Segment, Strays, Plain;
    trace, handled := [], [];
    var i := 0;
    RunStarts(argv, keys);
    while i < |argv|
      invariant i <= |argv|
      invariant Segment(argv, keys) == trace + Segment(argv[i..], keys)
      invariant handled == if hasDefault then Strays(trace) else []
    {
      if argv[i] !in keys {
        StrayStep(argv, keys, i);
        StraysSnoc(trace, Stray(argv[i]));
        trace := trace + [Stray(argv[i])];
        if hasDefault {
          handled := handled + [argv[i]];
        }
        i := i + 1;
        continue;
      }
      var j := i + 1;
      while j < |argv| && argv[j] !in keys
        invariant i < j <= |argv|
        invariant forall k :: i < k < j ==> argv[k] !in keys
      {
        j := j + 1;
      }
      CommandStep(argv, keys, i, j);
      var call := Call(keys[argv[i]], argv[i], argv[i + 1..j]);
      StraysSnoc(trace, call);
      trace := trace + [call];
      i := j;
    }
    RunEnds(argv, keys);
  }

  lemma RunStarts(argv: seq<string>, keys: Keys)
    ensures argv[0..] == argv && Strays([]) == []
    ensures [] + Segment(argv, keys) == Segment(argv, keys)
  {
  }

  lemma RunEnds(argv: seq<string>, keys: Keys)
    ensures Segment(argv[|argv|..], keys) == []
  {
  }

  lemma {:induction false} StraysSnoc(s: seq<Event>, e: Event)
    ensures Strays(s + [e]) == Strays(s) + if e.Stray? then [e.item] else []
  {
    if s == [] {
      assert s + [e] == [e];
    } else {
      StraysSnoc(s[1..], e);
      assert (s + [e])[1..] == s[1..] + [e];
    }
  }

  lemma PlainIs(argv: seq<string>, keys: Keys, n: nat)
    requires n <= |argv| && (forall i :: 0 <= i < n ==> argv[i] !in keys) && (n < |argv| ==> argv[n] in keys)
    ensures Plain(argv, keys) == n
  {
  }

  lemma StrayStep(argv: seq<string>, keys: Keys, i: nat)
    requires i < |argv| && argv[i] !in keys
    ensures Segment(argv[i..], keys) == [Stray(argv[i])] + Segment(argv[i + 1..], keys)
  {
  }

  lemma FirstCommand(argv: seq<string>, keys: Keys, n: nat)
    requires argv != [] && argv[0] in keys && n == Plain(argv[1..], keys)
    ensures Segment(argv, keys) == [Call(keys[argv[0]], argv[0], argv[1..n + 1])] + Segment(argv[n + 1..], keys)
  {
    hide Plain;
  }

  lemma Slices<T>(s: seq<T>, i: nat, j: nat)
    requires i < j <= |s|
    ensures s[i..][0] == s[i] && s[i..][1..] == s[i + 1..]
    ensures s[i..][1..j - i] == s[i + 1..j] && s[i..][j - i..] == s[j..]
  {
  }

  lemma CommandStep(argv: seq<string>, keys: Keys, i: nat, j: nat)
    requires i < j <= |argv| && argv[i] in keys
    requires (forall k :: i < k < j ==> argv[k] !in keys) && (j < |argv| ==> argv[j] in keys)
    ensures Segment(argv[i..], keys) == [Call(keys[argv[i]], argv[i], argv[i + 1..j])] + Segment(argv[j..], keys)
  {
    hide Segment, Plain;
    var s := argv[i..];
    Slices(argv, i, j);
    PlainIs(s[1..], keys, j - i - 1);
    FirstCommand(s, keys, j - i - 1);
  }

  // ---------------------------------------------------------------- what segmentation means

  function Items(e: Event): seq<string> {
    match e
    case Stray(item) => [item]
    case Call(_, command, args) => [command] + args
  }

  function Flatten(trace: seq<Event>): seq<string> {
    if trace == [] then [] else Items(trace[0]) + Flatten(trace[1..])
  }

  ghost predicate ProperEvent(e: Event, keys: Keys) {
    match e
    case Stray(item) => item !in keys
    case Call(handler, command, args) =>
      command in keys && keys[command] == handler && forall a :: a in args ==> a !in keys
  }

  ghost predicate AllCalls(trace: seq<Event>) {
    forall e :: e in trace ==> e.Call?
  }

  /** Every event is proper, and only commands follow a command. */
  ghost predicate Proper(trace: seq<Event>, keys: Keys) {
    trace == []
    || (ProperEvent(trace[0], keys) && (trace[0].Call? ==> AllCalls(trace[1..])) && Proper(trace[1..], keys))
  }

  lemma {:induction false} SegmentIsProper(argv: seq<string>, keys: Keys)
    ensures Flatten(Segment(argv, keys)) == argv && Proper(Segment(argv, keys), keys)
    ensures argv == [] || argv[0] in keys ==> AllCalls(Segment(argv, keys))
    decreases |argv|
  {
    if argv != [] {
      if argv[0] !in keys {
        SegmentIsProper(argv[1..], keys);
        ConsEvent(Stray(argv[0]), Segment(argv[1..], keys));
      } else {
        var n := Plain(argv[1..], keys);
        SegmentIsProper(argv[n + 1..], keys);
        ProperCommand(argv, keys, n, Segment(argv[n + 1..], keys));
      }
    }
  }

  lemma ProperCommand(argv: seq<string>, keys: Keys, n: nat, later: seq<Event>)
    requires argv != [] && argv[0] in keys && n == Plain(argv[1..], keys)
    requires Flatten(later) == argv[n + 1..] && Proper(later, keys)
    requires argv[n + 1..] == [] || argv[n + 1..][0] in keys ==> AllCalls(later)
    ensures var trace := [Call(keys[argv[0]], argv[0], argv[1..n + 1])] + later;
            Flatten(trace) == argv && Proper(trace, keys) && AllCalls(trace)
  {
    hide Plain, Flatten;
    var rest := argv[n + 1..];
    var call := Call(keys[argv[0]], argv[0], argv[1..n + 1]);
    var trace := [call] + later;
    assert rest == [] || rest[0] == argv[1..][n];
    ConsEvent(call, later);
    PlainArguments(argv[1..], keys, argv[1..n + 1]);
    assert [argv[0]] + argv[1..n + 1] + rest == argv;
    assert trace[1..] == later && trace[0] == call;
  }

  lemma PlainArguments(argv: seq<string>, keys: Keys, args: seq<string>)
    requires args == argv[..Plain(argv, keys)]
    ensures forall a :: a in args ==> a !in keys
  {
  }

  lemma ConsEvent(e: Event, trace: seq<Event>)
    ensures Flatten([e] + trace) == Items(e) + Flatten(trace)
  {
  }

  lemma StraySegment(item: string, rest: seq<string>, keys: Keys)
    requires item !in keys
    ensures Segment([item] + rest, keys) == [Stray(item)] + Segment(rest, keys)
  {
    assert ([item] + rest)[1..] == rest;
  }

  lemma {:induction false} ProperIsSegment(trace: seq<Event>, keys: Keys)
    requires Proper(trace, keys)
    ensures trace == Segment(Flatten(trace), keys)
  {
    if trace != [] {
      hide Segment, Plain;
      var rest := Flatten(trace[1..]);
      ProperIsSegment(trace[1..], keys);
      assert trace == [trace[0]] + trace[1..];
      match trace[0]
      case Stray(item) =>
        StraySegment(item, rest, keys);
      case Call(handler, command, args) =>
        CallsStartWithKey(trace[1..], keys);
        ArgumentsEnd(args, rest, keys);
        CallSegment(trace[0], Flatten(trace), rest, keys);
    }
  }

  lemma Parts<T>(x: T, s: seq<T>, t: seq<T>)
    ensures var u := [x] + s + t;
            u[0] == x && u[1..] == s + t && u[1..|s| + 1] == s && u[|s| + 1..] == t
  {
  }

  lemma CallSegment(call: Event, argv: seq<string>, rest: seq<string>, keys: Keys)
    requires call.Call? && ProperEvent(call, keys) && argv == Items(call) + rest
    requires Plain(call.args + rest, keys) == |call.args|
    ensures Segment(argv, keys) == [call] + Segment(rest, keys)
  {
    hide Plain, Segment;
    Parts(call.command, call.args, rest);
    FirstCommand(argv, keys, |call.args|);
  }

  lemma CallsStartWithKey(trace: seq<Event>, keys: Keys)
    requires AllCalls(trace) && Proper(trace, keys)
    ensures Flatten(trace) == [] || Flatten(trace)[0] in keys
  {
    if trace != [] {
      assert trace[0] in trace;
    }
  }

  lemma ArgumentsEnd(args: seq<string>, rest: seq<string>, keys: Keys)
    requires (forall a :: a in args ==> a !in keys) && (rest == [] || rest[0] in keys)
    ensures Plain(args + rest, keys) == |args|
  {
    forall i | 0 <= i < |args|
      ensures (args + rest)[i] !in keys
    {
      assert args[i] in args;
    }
    PlainIs(args + rest, keys, |args|);
  }

  /** The trace of a run is the only way to cut the arguments, in order and without loss, into stray
      items followed by commands whose arguments contain no command name. */
  lemma Segmentation(argv: seq<string>, keys: Keys, trace: seq<Event>)
    ensures trace == Segment(argv, keys) <==> Flatten(trace) == argv && Proper(trace, keys)
  {
    SegmentIsProper(argv, keys);
    if Flatten(trace) == argv && Proper(trace, keys) {
      ProperIsSegment(trace, keys);
    }
  }

  lemma {:induction false} NoStrays(trace: seq<Event>)
    requires AllCalls(trace)
    ensures Strays(trace) == []
  {
    if trace != [] {
      assert trace[0] in trace && forall e :: e in trace[1..] ==> e in trace;
      NoStrays(trace[1..]);
    }
  }

  /** The default handler gets exactly the items before the first command name. */
  lemma {:induction false} StraysArePrefix(argv: seq<string>, keys: Keys)
    ensures Strays(Segment(argv, keys)) == argv[..Plain(argv, keys)]
  {
    if argv == [] {
      assert Strays(Segment(argv, keys)) == [];
    } else if argv[0] in keys {
      SegmentIsProper(argv, keys);
      NoStrays(Segment(argv, keys));
      assert Plain(argv, keys) == 0 && argv[..0] == [];
    } else {
      var rest := argv[1..];
      StraysArePrefix(rest, keys);
      StraysCons(Stray(argv[0]), Segment(rest, keys));
      assert argv[..Plain(argv, keys)] == [argv[0]] + rest[..Plain(rest, keys)];
    }
  }

  lemma StraysCons(e: Event, trace: seq<Event>)
    requires e.Stray?
    ensures Strays([e] + trace) == [e.item] + Strays(trace)
  {
  }
}

/** `formatMessage` of basic/final1/log.h: filling the `{}` placeholders of a format. */
module LogFormat {

  const HOLE := "{}"

  /** `{}` stands at `i`. */
  predicate HoleAt(s: string, i: nat) {
    i + 2 <= |s| && s[i] == '{' && s[i + 1] == '}'
  }

  /** The specification, by recursion on the format: the leftmost placeholder takes the first
      argument; without arguments it stays; arguments left over at the end are appended. */
  function Filled(format: string, args: seq<string>): string
    decreases |format|
  {
    if format == [] then Concat(args)
    else if HoleAt(format, 0) then
      if args == [] then HOLE + Filled(format[2..], []) else args[0] + Filled(format[2..], args[1..])
    else [format[0]] + Filled(format[1..], args)
  }

  function Concat(args: seq<string>): string {
    if args == [] then "" else args[0] + Concat(args[1..])
  }

  /** `format.find("{}", pos)`, the length standing for `npos`. */
  function Find(s: string, pos: nat): (i: nat)
    requires pos <= |s|
    ensures pos <= i <= |s| && (i < |s| ==> HoleAt(s, i))
    ensures forall j | pos <= j < i :: !HoleAt(s, j)
    decreases |s| - pos
  {
    if pos == |s| then |s| else if HoleAt(s, pos) then pos else Find(s, pos + 1)
  }

  /** Text without a placeholder is copied. */
  lemma {:induction false} FilledCopies(format: string, pos: nat, next: nat, args: seq<string>)
    requires pos <= next <= |format| && forall j | pos <= j < next :: !HoleAt(format, j)
    ensures Filled(format[pos..], args) == format[pos..next] + Filled(format[next..], args)
    decreases next - pos
  {
    if pos == next {
      assert format[pos..next] == [];
    } else {
      FilledCopies(format, pos + 1, next, args);
      var s := format[pos..];
      assert !HoleAt(format, pos) && !HoleAt(s, 0);
      assert s[1..] == format[pos + 1..] && [s[0]] + format[pos + 1..next] == format[pos..next];
    }
  }

  lemma FilledHole(format: string, pos: nat, args: seq<string>)
    requires pos < |format| && HoleAt(format, pos)
    ensures Filled(format[pos..], args)
            == if args == [] then HOLE + Filled(format[pos + 2..], [])
               else args[0] + Filled(format[pos + 2..], args[1..])
  {
    var rest := format[pos..];
    assert HoleAt(rest, 0) && rest[2..] == format[pos + 2..];
  }

  lemma Associate(a: string, b: string, c: string, d: string)
    ensures a + (b + (c + d)) == a + b + c + d
  {
  }

  /** One round of the loop: the text up to a placeholder, and what is put for it. */
  lemma OneRound(format: string, args: seq<string>, pos: nat, placeholder: nat, argIndex: nat, oss: string)
    requires pos <= placeholder < |format| && HoleAt(format, placeholder) && argIndex <= |args|
    requires forall j | pos <= j < placeholder :: !HoleAt(format, j)
    ensures placeholder + 2 <= |format|
    ensures oss + Filled(format[pos..], args[argIndex..])
            == if argIndex < |args| then
                 oss + format[pos..placeholder] + args[argIndex]
                 + Filled(format[placeholder + 2..], args[argIndex + 1..])
               else oss + format[pos..placeholder] + HOLE + Filled(format[placeholder + 2..], args[argIndex..])
  {
    hide Filled, HoleAt;
    HoleFits(format, placeholder);
    var rest, text := args[argIndex..], format[pos..placeholder];
    FilledCopies(format, pos, placeholder, rest);
    FilledHole(format, placeholder, rest);
    if argIndex < |args| {
      assert rest[0] == args[argIndex] && rest[1..] == args[argIndex + 1..];
      Associate(oss, text, args[argIndex], Filled(format[placeholder + 2..], rest[1..]));
    } else {
      Associate(oss, text, HOLE, Filled(format[placeholder + 2..], []));
    }
  }

  /** The text after the last placeholder. */
  lemma LastRound(format: string, args: seq<string>, pos: nat, argIndex: nat, oss: string)
    requires pos <= |format| && argIndex <= |args| && forall j | pos <= j < |format| :: !HoleAt(format, j)
    ensures oss + Filled(format[pos..], args[argIndex..]) == oss + format[pos..] + Concat(args[argIndex..])
  {
    hide Filled, HoleAt;
    FilledCopies(format, pos, |format|, args[argIndex..]);
    FilledEnd(args[argIndex..]);
    assert format[pos..|format|] == format[pos..] && format[|format|..] == [];
    assert oss + (format[pos..] + Concat(args[argIndex..])) == oss + format[pos..] + Concat(args[argIndex..]);
  }

  /** The loop, up to the time stamp that is put before its result. */
  method FormatBody(format: string, args: seq<string>) returns (oss: string)
    ensures oss == Filled(format, args)
  {
    hide Filled, HoleAt, Concat;
    oss := "";
    var argIndex := 0;
    var pos, placeholder := 0, Find(format, 0);
    assert format[0..] == format && args[0..] == args;
    while placeholder < |format|
      invariant 0 <= pos <= placeholder <= |format| && 0 <= argIndex <= |args|
      invariant placeholder == Find(format, pos)
      invariant Filled(format, args) == oss + Filled(format[pos..], args[argIndex..])
      decreases |format| - pos
    {
      OneRound(format, args, pos, placeholder, argIndex, oss);
      oss := oss + format[pos..placeholder];
      if argIndex < |args| {
        oss := oss + args[argIndex];
        argIndex := argIndex + 1;
      } else {
        oss := oss + HOLE;
      }
      pos := placeholder + 2;
      placeholder := Find(format, pos);
    }
    LastRound(format, args, pos, argIndex, oss);
    oss := oss + format[pos..];
    oss := AppendRest(oss, args, argIndex);
  }

  lemma HoleFits(format: string, i: nat)
    requires i < |format| && HoleAt(format, i)
    ensures i + 2 <= |format|
  {
  }

  lemma FilledEnd(args: seq<string>)
    ensures Filled([], args) == Concat(args)
  {
  }

  method AppendRest(oss: string, args: seq<string>, from: nat) returns (out: string)
    requires from <= |args|
    ensures out == oss + Concat(args[from..])
  {
    out := oss;
    var argIndex := from;
    while argIndex < |args|
      invariant from <= argIndex <= |args|
      invariant oss + Concat(args[from..]) == out + Concat(args[argIndex..])
    {
      assert args[argIndex..][0] == args[argIndex] && args[argIndex..][1..] == args[argIndex + 1..];
      assert out + (args[argIndex] + Concat(args[argIndex + 1..]))
             == out + args[argIndex] + Concat(args[argIndex + 1..]);
      out := out + args[argIndex];
      argIndex := argIndex + 1;
    }
    assert args[|args|..] == [];
  }

  // ---------- What filling means ----------

  /** The number of placeholders. */
  function Holes(format: string): nat
    decreases |format|
  {
    if format == [] then 0
    else if HoleAt(format, 0) then 1 + Holes(format[2..])
    else Holes(format[1..])
  }

  /** The first placeholder takes the first argument; without a placeholder there is only appending. */
  lemma {:induction false} FirstHoleIsFilled(text: string, more: string, arg: string, rest: seq<string>)
    requires forall i | 0 <= i < |text| - 1 && text[i] == '{' :: text[i + 1] != '}'
    ensures Filled(text, rest) == text + Concat(rest)
    ensures Filled(text + "{}" + more, [arg] + rest) == text + arg + Filled(more, rest)
    decreases |text|
  {
    var format := text + "{}" + more;
    if text == "" {
      assert format[2..] == more && ([arg] + rest)[1..] == rest;
      assert "" + arg == arg && "" + Concat(rest) == Concat(rest);
    } else {
      var c, tail := text[0], text[1..];
      FirstHoleIsFilled(tail, more, arg, rest);
      assert format[1..] == tail + "{}" + more && !HoleAt(format, 0) && !HoleAt(text, 0);
      Prefixed(c, tail, text, arg, Filled(more, rest));
      Prefixed(c, tail, text, "", Concat(rest));
    }
  }

  lemma Prefixed(c: char, tail: string, text: string, a: string, b: string)
    requires text == [c] + tail
    ensures [c] + (tail + a + b) == text + a + b && tail + "" + b == tail + b && text + "" + b == text + b
  {
  }

  /** Without arguments the format stays as it is; without a format they come one after another. */
  lemma {:induction false} WithoutArguments(format: string, arg: string, args: seq<string>)
    ensures Filled(format, []) == format && Filled("", [arg] + args) == arg + Filled("", args)
    decreases |format|
  {
    assert ([arg] + args)[1..] == args;
    if format != "" {
      if HoleAt(format, 0) {
        WithoutArguments(format[2..], arg, args);
        assert format == HOLE + format[2..];
      } else {
        WithoutArguments(format[1..], arg, args);
        assert format == [format[0]] + format[1..];
      }
    }
  }

  /** Length is conserved: each argument that found a placeholder replaces two characters. */
  lemma {:induction false} FilledLength(format: string, args: seq<string>)
    ensures var used := if Holes(format) < |args| then Holes(format) else |args|;
            |Filled(format, args)| == |format| - 2 * used + |Concat(args)|
    decreases |format|
  {
    if format != [] {
      if HoleAt(format, 0) {
        FilledLength(format[2..], if args == [] then [] else args[1..]);
      } else {
        FilledLength(format[1..], args);
      }
    }
  }

  /** With one argument for every placeholder, a format cut at its placeholders is joined again
      with the arguments: they go in order, and their own text is never searched. */
  function Join(parts: seq<string>, args: seq<string>): string
    requires |parts| == |args| + 1
  {
    if args == [] then parts[0] else parts[0] + args[0] + Join(parts[1..], args[1..])
  }

  function Cut(format: string): (parts: seq<string>)
    ensures |parts| == Holes(format) + 1
    decreases |format|
  {
    if format == [] then [""]
    else if HoleAt(format, 0) then [""] + Cut(format[2..])
    else
      var parts := Cut(format[1..]);
      [[format[0]] + parts[0]] + parts[1..]
  }

  function Repeat(n: nat): seq<string> {
    seq(n, _ => HOLE)
  }

  lemma {:induction false} FilledIsJoin(format: string, args: seq<string>)
    requires |args| == Holes(format)
    ensures Filled(format, args) == Join(Cut(format), args)
    decreases |format|
  {
    if format != [] {
      var parts := Cut(format);
      if HoleAt(format, 0) {
        FilledIsJoin(format[2..], args[1..]);
        assert parts[1..] == Cut(format[2..]);
        assert "" + args[0] == args[0];
      } else {
        FilledIsJoin(format[1..], args);
        var inner := Cut(format[1..]);
        assert parts[1..] == inner[1..];
        if args != [] {
          assert [format[0]] + inner[0] + args[0] + Join(inner[1..], args[1..])
              == [format[0]] + (inner[0] + args[0] + Join(inner[1..], args[1..]));
        }
      }
    }
  }

  /** Missing arguments leave their placeholders. */
  lemma {:induction false} MissingArgumentsLeaveHoles(format: string, args: seq<string>)
    requires |args| <= Holes(format)
    ensures Filled(format, args) == Filled(format, args + Repeat(Holes(format) - |args|))
    decreases |format|
  {
    var n := Holes(format);
    var padded := args + Repeat(n - |args|);
    if format == [] {
      assert padded == args;
    } else if HoleAt(format, 0) {
      if args == [] {
        assert padded[0] == HOLE && padded[1..] == [] + Repeat(n - 1);
        MissingArgumentsLeaveHoles(format[2..], []);
      } else {
        assert padded[0] == args[0] && padded[1..] == args[1..] + Repeat(n - |args|);
        MissingArgumentsLeaveHoles(format[2..], args[1..]);
      }
    } else {
      MissingArgumentsLeaveHoles(format[1..], args);
    }
  }

  /** Surplus arguments are appended in order. */
  lemma {:induction false} SurplusArgumentsAreAppended(format: string, args: seq<string>)
    requires |args| >= Holes(format)
    ensures Filled(format, args) == Filled(format, args[..Holes(format)]) + Concat(args[Holes(format)..])
    decreases |format|
  {
    var n := Holes(format);
    if format == [] {
      assert args[0..] == args;
    } else if HoleAt(format, 0) {
      var rest := args[1..];
      SurplusArgumentsAreAppended(format[2..], rest);
      assert args[..n][1..] == rest[..n - 1] && args[n..] == rest[n - 1..];
      assert args[0] + (Filled(format[2..], rest[..n - 1]) + Concat(args[n..]))
          == args[0] + Filled(format[2..], rest[..n - 1]) + Concat(args[n..]);
    } else {
      SurplusArgumentsAreAppended(format[1..], args);
      assert [format[0]] + (Filled(format[1..], args[..n]) + Concat(args[n..]))
          == [format[0]] + Filled(format[1..], args[..n]) + Concat(args[n..]);
    }
  }
}

/** The printing helpers of log.go: `Log`, `Error` and `VLog` build a
    `Printf` format from a prefix and their arguments. The model stops at
    the `Printf` call: it yields the format and the arguments handed to
    it; the formatting itself belongs to `fmt`. */
module Log {
  import opened Strings
  import Common

  /** An argument as the type switch of `log` sees it: a string, a value
      with a `String` method (its result), or anything else. */
  datatype Arg = Str(s: string) | Stringer(text: string) | Other

  /** What one call prints: nothing, one `Printf`, or the index-out-of-range
      panic of an empty format. */
  datatype Output = Silent | Printf(format: string, args: seq<Arg>) | Panics

  /** The characters trimmed off the end of the prefix. */
  const PrefixCut: set<char> := {'\t', ' ', '\n'}

  /** `writelog`'s format (log.go:26-35): a `" %s"` per argument the
      format has no `%` for, and a final newline unless there is one; an
      empty format with no arguments indexes position -1. */
  function WriteFormat(format: string, nargs: nat): (r: Common.Option<string>)
    ensures r.None? <==> format == "" && nargs == 0
    ensures r.Some? ==> |r.value| > 0 && r.value[|r.value| - 1] == '\n'
    ensures r.Some? ==> |format| <= |r.value| && r.value[..|format|] == format
  {
    var n := Count(format, '%');
    var f := if n < nargs then format + Repeat(" %s", nargs - n) else format;
    if |f| == 0 then Common.None
    else if f[|f| - 1] != '\n' then Common.Some(f + "\n")
    else Common.Some(f)
  }

  /** A newline is added exactly when the format, once padded, does not
      end in one. */
  lemma NewlineOnce(format: string, nargs: nat)
    requires format != "" && format[|format| - 1] == '\n' && Count(format, '%') >= nargs
    ensures WriteFormat(format, nargs) == Common.Some(format)
  {
  }

  /** The padded format has a `%` for every argument. */
  lemma {:induction false} VerbPerArg(format: string, nargs: nat)
    requires WriteFormat(format, nargs).Some?
    ensures Count(WriteFormat(format, nargs).value, '%') >= nargs
    ensures Count(format, '%') < nargs ==> Count(WriteFormat(format, nargs).value, '%') == nargs
  {
    var n := Count(format, '%');
    var f := if n < nargs then format + Repeat(" %s", nargs - n) else format;
    if n < nargs {
      CountAppend(format, Repeat(" %s", nargs - n));
      CountPad(nargs - n);
    }
    if f[|f| - 1] != '\n' {
      CountAppend(f, "\n");
      assert Count("\n", '%') == 0;
    }
  }

  lemma {:induction false} CountAppend(a: string, b: string)
    ensures Count(a + b, '%') == Count(a, '%') + Count(b, '%')
  {
    if a != [] {
      CountAppend(a[1..], b);
      assert (a + b)[1..] == a[1..] + b;
    } else {
      assert a + b == b;
    }
  }

  lemma {:induction false} CountPad(k: nat)
    ensures Count(Repeat(" %s", k), '%') == k
  {
    if k > 0 {
      CountPad(k - 1);
      CountAppend(" %s", Repeat(" %s", k - 1));
      assert " %s"[1..] == "%s" && "%s"[1..] == "s" && "s"[1..] == "";
    }
  }

  /** The text a string or `Stringer` argument contributes to the format. */
  function Text(a: Arg): string
    requires !a.Other?
  {
    if a.Str? then a.s else a.text
  }

  /** `log` (log.go:24-51): the trimmed prefix is put in front of the
      format. A string or `Stringer` first argument is the format; any
      other first argument gets a `"%s "` per argument. */
  function Log(prefix: string, args: seq<Arg>): (r: Output)
    ensures r.Printf? ==> |TrimRight(prefix, PrefixCut)| <= |r.format|
    ensures r.Printf? ==> r.format[..|TrimRight(prefix, PrefixCut)|] == TrimRight(prefix, PrefixCut)
    ensures r.Printf? && args != [] ==> r.args == (if args[0].Other? then args else args[1..])
    ensures !r.Silent?
  {
    var p := TrimRight(prefix, PrefixCut);
    if args == [] then Emit(p, 0, [])
    else if args[0].Other? then Emit(p + Repeat("%s ", |args|), |args|, args)
    else Emit(p + Text(args[0]), |args| - 1, args[1..])
  }

  /** `log` panics exactly when the format it builds is empty and has no
      argument left: nothing but trimmed characters in the prefix and no
      argument, or a lone empty string. */
  lemma LogPanics(prefix: string, args: seq<Arg>)
    ensures Log(prefix, args).Panics? <==>
      TrimRight(prefix, PrefixCut) == "" && (args == [] || (|args| == 1 && !args[0].Other? && Text(args[0]) == ""))
  {
    var p := TrimRight(prefix, PrefixCut);
    if args != [] && args[0].Other? {
      assert |p + Repeat("%s ", |args|)| >= 3;
    }
  }

  /** The `Printf` call `writelog` makes. */
  function Emit(format: string, nargs: nat, args: seq<Arg>): (r: Output)
    ensures r.Panics? <==> format == "" && nargs == 0
    ensures r.Printf? ==> r.args == args && |format| <= |r.format| && r.format[..|format|] == format
    ensures !r.Silent?
  {
    var f := WriteFormat(format, nargs);
    if f.None? then Panics else Printf(f.value, args)
  }

  /** Every argument handed to `Printf` has a verb in the format. */
  lemma ArgsCovered(prefix: string, args: seq<Arg>)
    requires Log(prefix, args).Printf?
    ensures Count(Log(prefix, args).format, '%') >= |Log(prefix, args).args|
  {
    var p := TrimRight(prefix, PrefixCut);
    if args == [] {
      assert Log(prefix, args) == Emit(p, 0, []);
      EmitCovered(p, []);
    } else if args[0].Other? {
      assert Log(prefix, args) == Emit(p + Repeat("%s ", |args|), |args|, args);
      EmitCovered(p + Repeat("%s ", |args|), args);
    } else {
      assert Log(prefix, args) == Emit(p + Text(args[0]), |args[1..]|, args[1..]);
      EmitCovered(p + Text(args[0]), args[1..]);
    }
  }

  lemma EmitCovered(format: string, args: seq<Arg>)
    requires Emit(format, |args|, args).Printf?
    ensures Count(Emit(format, |args|, args).format, '%') >= |args|
  {
    VerbPerArg(format, |args|);
  }

  /** `Log()` with no arguments panics; so does `Log("")`. */
  lemma EmptyLogPanics()
    ensures Log("", []) == Panics
    ensures Log("", [Str("")]) == Panics
  {
    assert TrimRight("", PrefixCut) == "";
  }

  /** `Error`: `log` with the prefix "ERROR: ", of which the trailing
      space is trimmed. */
  function Error(args: seq<Arg>): (r: Output)
    ensures r.Printf? ==> |r.format| >= 6 && r.format[..6] == "ERROR:"
    ensures !r.Panics?
  {
    ErrorPrefix();
    LogPanics("ERROR: ", args);
    Log("ERROR: ", args)
  }

  lemma ErrorPrefix()
    ensures TrimRight("ERROR: ", PrefixCut) == "ERROR:"
  {
    assert "ERROR: "[..6] == "ERROR:";
  }

  /** `VLog`: `Log` when verbose, nothing otherwise. */
  function VLog(verbose: bool, args: seq<Arg>): (r: Output)
    ensures !verbose <==> r.Silent?
    ensures verbose ==> r == Log("", args)
  {
    if verbose then Log("", args) else Silent
  }
}

/** The query language of `gx view` (viewquery.go): a query such as
    `.a[5].b` or `.deps[.name=foo].hash` is split into segments, and the
    segments walk a decoded JSON document: object keys by name, array
    members by `[N]` or by `[subquery=value]`. */
module ViewQuery {
  import opened Common
  import opened Strings
  import opened Json

  /** How a step of the query ends: with a value, with the error the Go
      code returns, or with a run-time panic of the Go code (a slice or
      index out of range), which the model reports instead of crashing. */
  datatype Outcome<+T> = Yields(value: T) | Fails(msg: string) | Panics(reason: string)

  const SliceOutOfRange := "slice bounds out of range"
  const IndexOutOfRange := "index out of range"

  /** Puts `p` in front of a successful split; errors and panics pass. */
  function Prepend(p: seq<string>, o: Outcome<seq<string>>): (r: Outcome<seq<string>>)
    ensures o.Yields? <==> r.Yields?
    ensures r.Yields? ==> r.value == p + o.value
    ensures !o.Yields? ==> r == o
  {
    if o.Yields? then Yields(p + o.value) else o
  }

  /** An outcome without a value, carried over to another value type. */
  function Carry<T, U>(o: Outcome<T>): (r: Outcome<U>)
    requires !o.Yields?
    ensures r.Fails? <==> o.Fails?
    ensures r.Fails? ==> r.msg == o.msg
    ensures r.Panics? ==> r.reason == o.reason
  {
    if o.Fails? then Fails(o.msg) else Panics(o.reason)
  }

  // ---------------------------------------------------------------------
  // Bracket matching

  /** How a character changes the bracket depth. */
  function Delta(c: char): int {
    if c == '[' then 1 else if c == ']' then -1 else 0
  }

  /** The bracket depth at the end of `s`, counted from zero. */
  function Level(s: string): int {
    if s == [] then 0 else Delta(s[0]) + Level(s[1..])
  }

  /** The depth after character `c`, from depth `d` (the `]` that ends the
      scan excluded). */
  function Next(c: char, d: nat): nat
    requires c != ']' || d > 0
  {
    if c == ']' then d - 1 else if c == '[' then d + 1 else d
  }

  /** `k` positions further on, unless there is nothing (-1). */
  function Shift(k: nat, r: int): int {
    if r < 0 then -1 else k + r
  }

  /** Reference definition of `findClosingBracket`: the position of the
      first `]` that takes the depth, starting at `d`, below zero; -1 when
      the depth never drops below zero. */
  function Close(s: string, d: nat): (r: int)
    ensures -1 <= r < |s|
    ensures r >= 0 ==> s[r] == ']'
    decreases |s|
  {
    if s == [] then -1
    else if s[0] == ']' && d == 0 then 0
    else Shift(1, Close(s[1..], Next(s[0], d)))
  }

  /** Characters that are not brackets leave the scan unchanged. */
  lemma {:induction false} CloseSkip(s: string, i: nat, d: nat)
    requires i <= |s|
    requires forall j :: 0 <= j < i ==> s[j] != '[' && s[j] != ']'
    ensures Close(s, d) == Shift(i, Close(s[i..], d))
  {
    if i > 0 {
      CloseSkip(s[1..], i - 1, d);
      assert s[1..][i - 1..] == s[i..];
    }
  }

  /** Scanning at depth `e + d + 1` is scanning at depth `e` up to its
      closing bracket, then at depth `d` behind it. */
  lemma {:induction false} CloseCompose(t: string, e: nat, d: nat)
    ensures Close(t, e + d + 1) ==
      (var n := Close(t, e); if n < 0 then -1 else Shift(n + 1, Close(t[n + 1..], d)))
    decreases |t|, 1
  {
    if t == [] {
    } else if t[0] == ']' && e == 0 {
      assert Close(t, e + d + 1) == Shift(1, Close(t[1..], d));
    } else {
      CloseComposeStep(t, e, d);
    }
  }

  /** The step of `CloseCompose` past a character that does not end the
      scan at depth `e`. */
  lemma {:induction false} CloseComposeStep(t: string, e: nat, d: nat)
    requires t != [] && (t[0] != ']' || e > 0)
    ensures Close(t, e + d + 1) ==
      (var n := Close(t, e); if n < 0 then -1 else Shift(n + 1, Close(t[n + 1..], d)))
    decreases |t|, 0
  {
    var e' := Next(t[0], e);
    assert Next(t[0], e + d + 1) == e' + d + 1;
    assert Close(t, e + d + 1) == Shift(1, Close(t[1..], e' + d + 1));
    assert Close(t, e) == Shift(1, Close(t[1..], e'));
    CloseCompose(t[1..], e', d);
    var n' := Close(t[1..], e');
    if n' >= 0 {
      assert t[1..][n' + 1..] == t[n' + 2..];
    }
  }

  /** `findClosingBracket` (viewquery.go:36-55): scans for the next bracket;
      a `]` ends the scan, a `[` is matched by a recursive call and the scan
      continues behind its partner. */
  method FindClosingBracket(a: string) returns (r: int)
    ensures r == Close(a, 0)
    decreases |a|, 1
  {
    var offset := 0;
    while true
      invariant 0 <= offset <= |a|
      invariant Close(a, 0) == Shift(offset, Close(a[offset..], 0))
      decreases |a| - offset
    {
      var done, res, next := ScanBracket(a, offset);
      if done {
        return res;
      }
      offset := next;
    }
  }

  /** One round of `findClosingBracket`'s loop from `offset`: either the
      scan ends there with `r`, or it goes on at `next`. */
  method ScanBracket(a: string, offset: nat) returns (done: bool, r: int, next: nat)
    requires offset <= |a|
    ensures done ==> r == Shift(offset, Close(a[offset..], 0))
    ensures !done ==> offset < next <= |a|
    ensures !done ==> Shift(offset, Close(a[offset..], 0)) == Shift(next, Close(a[next..], 0))
    decreases |a|, 0
  {
    var t := a[offset..];
    var i := IndexAny(t, {'[', ']'});
    if i == -1 {
      CloseSkip(t, |t|, 0);
      return true, -1, 0;
    }
    CloseSkip(t, i, 0);
    if t[i] == ']' {
      return true, offset + i, 0;
    }
    assert t[i + 1..] == a[offset + i + 1..];
    var n := FindClosingBracket(t[i + 1..]);
    CloseOpen(t, i, n);
    if n == -1 {
      return true, -1, 0;
    }
    next := offset + i + n + 2;
    assert t[i + n + 2..] == a[next..];
    ghost var x := Close(a[next..], 0);
    ShiftShift(i, n + 2, x);
    ShiftShift(offset, i + n + 2, x);
    return false, 0, next;
  }

  lemma ShiftShift(k: nat, m: nat, x: int)
    ensures Shift(k, Shift(m, x)) == Shift(k + m, x)
  {
  }

  /** The scan past an opening bracket at `p`: its partner is found by a
      scan of its own, and the outer scan goes on behind the partner. */
  lemma {:induction false} CloseOpen(a: string, p: nat, n: int)
    requires p < |a| && a[p] == '['
    requires n == Close(a[p + 1..], 0)
    ensures Close(a[p..], 0) == if n < 0 then -1 else Shift(n + 2, Close(a[p + n + 2..], 0))
  {
    var u := a[p..];
    assert u[1..] == a[p + 1..];
    CloseOpenAt(u, n);
    if n >= 0 {
      assert u[n + 2..] == a[p + n + 2..];
    }
  }

  /** `CloseOpen` on a string that starts with the opening bracket. */
  lemma {:induction false} CloseOpenAt(u: string, n: int)
    requires u != [] && u[0] == '['
    requires n == Close(u[1..], 0)
    ensures Close(u, 0) == if n < 0 then -1 else Shift(n + 2, Close(u[n + 2..], 0))
  {
    var t := u[1..];
    assert Close(u, 0) == Shift(1, Close(t, 1));
    CloseCompose(t, 0, 0);
    if n >= 0 {
      assert t[n + 1..] == u[n + 2..];
      ShiftShift(1, n + 1, Close(u[n + 2..], 0));
    }
  }

  /** What `findClosingBracket` finds, in terms of depth: the scan never
      goes below zero before the result, and the result is the `]` that
      takes it to -1; -1 means the depth never drops below zero. */
  lemma {:induction false} CloseMeaning(s: string, d: nat)
    ensures var r := Close(s, d);
      (r >= 0 ==> s[r] == ']' && d + Level(s[..r]) == 0 && d + Level(s[..r + 1]) == -1
                  && forall j :: 0 <= j <= r ==> d + Level(s[..j]) >= 0)
      && (r < 0 ==> forall j :: 0 <= j <= |s| ==> d + Level(s[..j]) >= 0)
    decreases |s|
  {
    var r := Close(s, d);
    if s == [] {
      assert forall j :: 0 <= j <= |s| ==> s[..j] == [];
    } else if s[0] == ']' && d == 0 {
      assert s[..1][1..] == [];
      assert s[..0] == [];
    } else {
      var d' := if s[0] == ']' then d - 1 else if s[0] == '[' then d + 1 else d;
      assert d' == d + Delta(s[0]);
      CloseMeaning(s[1..], d');
      forall j | 1 <= j <= |s|
        ensures d + Level(s[..j]) == d' + Level(s[1..][..j - 1])
      {
        assert s[..j][1..] == s[1..][..j - 1];
      }
      assert s[..0] == [];
    }
  }

  /** The three cases of viewquery_test.go:36-48. */
  lemma {:induction false} FindClosingBracketCases()
    ensures Close("asdas]", 0) == 5
    ensures Close("a[d]as]", 0) == 6
    ensures Close("a[[[[]]]]as]", 0) == 11
  {
    assert Close("]", 0) == 0;
    assert Close("s]", 0) == 1;
    assert Close("as]", 0) == 2;
    assert Close("]as]", 1) == 3;
    assert Close("d]as]", 1) == 4;
    assert Close("[d]as]", 0) == 5;
    assert Close("as]", 0) == 2;
    assert Close("]as]", 1) == 3;
    assert Close("]]as]", 2) == 4;
    assert Close("]]]as]", 3) == 5;
    assert Close("]]]]as]", 4) == 6;
    assert Close("[]]]]as]", 3) == 7;
    assert Close("[[]]]]as]", 2) == 8;
    assert Close("[[[]]]]as]", 1) == 9;
    assert Close("[[[[]]]]as]", 0) == 10;
  }

  // ---------------------------------------------------------------------
  // Splitting a query into segments

  /** The characters that end a plain segment. */
  const Stops: set<char> := {'.', '['}

  /** The split of a query whose leading dots are gone: a plain segment up
      to the next `.` or `[`, a bracket segment up to its closing `]`, and
      so on to the end. A bracket segment that closes at the very end of the
      query makes the Go code slice past the end of the string. */
  function ParseFrom(q: string): (r: Outcome<seq<string>>)
    ensures r.Yields? ==> |r.value| >= 1 && forall k :: 0 <= k < |r.value| ==> |r.value[k]| <= |q|
    decreases |q|, 1
  {
    ParseAt(q, IndexAny(q, Stops))
  }

  function ParseAt(q: string, i: int): (r: Outcome<seq<string>>)
    requires -1 <= i < |q|
    ensures r.Yields? ==> |r.value| >= 1 && forall k :: 0 <= k < |r.value| ==> |r.value[k]| <= |q|
    decreases |q|, 0
  {
    if i < 0 then Yields([q])
    else if q[i] == '[' then
      var clb := Close(q[i + 1..], 0);
      if clb < 0 then Fails("closing bracket not found")
      else if i + clb + 3 > |q| then Panics(SliceOutOfRange)
      else Prepend([q[..i], q[i..i + clb + 2]], ParseFrom(q[i + clb + 3..]))
    else Prepend([q[..i]], ParseFrom(q[i + 1..]))
  }

  /** `parseQueryString`: leading dots are dropped, and nothing left means
      no segments and no error. */
  function ParseQueryString(qstr: string): (r: Outcome<seq<string>>)
    ensures r.Yields? ==> forall k :: 0 <= k < |r.value| ==> |r.value[k]| <= |qstr|
  {
    var t := TrimLeft(qstr, {'.'});
    if t == [] then Yields([]) else ParseFrom(t)
  }

  /** `parseQueryString` (viewquery.go:9-34). */
  method ParseQuery(qstr: string) returns (r: Outcome<seq<string>>)
    ensures r == ParseQueryString(qstr)
  {
    var q := TrimLeft(qstr, {'.'});
    if q == "" {
      return Yields([]);
    }
    ghost var t := q;
    var out: seq<string> := [];
    assert Prepend([], ParseFrom(q)) == ParseFrom(q) by {
      if ParseFrom(q).Yields? { assert [] + ParseFrom(q).value == ParseFrom(q).value; }
    }
    while true
      invariant ParseFrom(t) == Prepend(out, ParseFrom(q))
      decreases |q|
    {
      var done, res, pieces, rest := SplitSegment(q);
      if done {
        return if res.Yields? then Yields(out + res.value) else res;
      }
      PrependPrepend(out, pieces, ParseFrom(rest));
      out, q := out + pieces, rest;
    }
  }

  /** One round of `parseQueryString`'s loop on what is left of the query:
      either the split ends there with `r`, or it yields `pieces` and goes
      on with `rest`. */
  method SplitSegment(q: string) returns (done: bool, r: Outcome<seq<string>>, pieces: seq<string>, rest: string)
    ensures done ==> r == ParseFrom(q) && (r.Yields? ==> r.value == [q] && IndexAny(q, Stops) < 0)
    ensures !done ==> |rest| < |q| && ParseFrom(q) == Prepend(pieces, ParseFrom(rest))
  {
    var i := IndexAny(q, Stops);
    if i == -1 {
      return true, Yields([q]), [], q;
    }
    pieces := [q[..i]];
    if q[i] == '[' {
      var clb := FindClosingBracket(q[i + 1..]);
      if clb == -1 {
        return true, Fails("closing bracket not found"), [], q;
      }
      pieces := pieces + [q[i..clb + i + 2]];
      if i + clb + 3 > |q| {
        return true, Panics(SliceOutOfRange), [], q;
      }
      rest := q[i + clb + 3..];
      ParseFromBracket(q, i, clb);
      assert pieces == [q[..i], q[i..i + clb + 2]];
    } else {
      rest := q[i + 1..];
      ParseFromDot(q, i);
    }
    done, r := false, Yields([]);
  }

  lemma {:induction false} PrependPrepend(p1: seq<string>, p2: seq<string>, o: Outcome<seq<string>>)
    ensures Prepend(p1, Prepend(p2, o)) == Prepend(p1 + p2, o)
  {
    if o.Yields? {
      assert p1 + (p2 + o.value) == (p1 + p2) + o.value;
    }
  }

  /** The splits of viewquery_test.go:24-34, one case each. */
  lemma {:induction false} QuerySplitDots()
    ensures ParseQueryString(".a.b") == Yields(["a", "b"])
  {
    ParseDotted(["a", "b"]);
    assert Join(["a", "b"], ".") == "a.b";
  }

  lemma {:induction false} QuerySplitIndex()
    ensures ParseQueryString(".a[5].b") == Yields(["a", "[5]", "b"])
  {
    assert Close("5]", 0) == 1;
    QueryBracketed("a", "5", ["b"]);
    SpellIndex();
  }

  lemma SpellIndex()
    ensures "." + ("a" + "[" + "5" + "]." + Join(["b"], ".")) == ".a[5].b"
    ensures ["a", "[" + "5" + "]"] + ["b"] == ["a", "[5]", "b"]
  {
    assert Join(["b"], ".") == "b";
    assert "[" + "5" + "]" == "[5]";
  }

  lemma {:induction false} QuerySplitMatch()
    ensures ParseQueryString(".a[.name[0]=fish].b") == Yields(["a", "[.name[0]=fish]", "b"])
  {
    FishBracket();
    assert PlainKey("a") && PlainKey("b");
    QueryBracketed("a", ".name[0]=fish", ["b"]);
    SpellMatch();
  }

  lemma FishBracket()
    ensures Close(".name[0]=fish" + "]", 0) == |".name[0]=fish"|
  {
    assert ".name[0]=fish" + "]" == ".name[0]=fish]";
    CloseFish();
  }

  lemma SpellMatch()
    ensures "." + ("a" + "[" + ".name[0]=fish" + "]." + Join(["b"], ".")) == ".a[.name[0]=fish].b"
    ensures ["a", "[" + ".name[0]=fish" + "]"] + ["b"] == ["a", "[.name[0]=fish]", "b"]
  {
    assert Join(["b"], ".") == "b";
    assert "[" + ".name[0]=fish" + "]" == "[.name[0]=fish]";
  }

  /** A bracketed segment between plain keys survives the leading dot. */
  lemma {:induction false} QueryBracketed(k: string, c: string, keys: seq<string>)
    requires PlainKey(k) && keys != []
    requires Close(c + "]", 0) == |c|
    requires forall j :: 0 <= j < |keys| ==> PlainKey(keys[j])
    ensures ParseQueryString("." + (k + "[" + c + "]." + Join(keys, ".")))
         == Yields([k, "[" + c + "]"] + keys)
  {
    var q := k + "[" + c + "]." + Join(keys, ".");
    ParseBracketed(k, c, keys);
    assert q != [] && q[0] != '.';
    OneLeadingDot(q);
  }

  lemma {:induction false} CloseFish()
    ensures Close(".name[0]=fish]", 0) == 13
  {
    var c := ".name[0]=fish]";
    CloseSkip(c, 5, 0);
    assert c[5..] == "[0]=fish]";
    CloseFishTail();
  }

  lemma {:induction false} CloseFishTail()
    ensures Close("[0]=fish]", 0) == 8
  {
    assert Close("]", 0) == 0;
    assert Close("h]", 0) == 1;
    assert Close("sh]", 0) == 2;
    assert Close("ish]", 0) == 3;
    assert Close("fish]", 0) == 4;
    assert Close("=fish]", 0) == 5;
    assert Close("]=fish]", 1) == 6;
    assert Close("0]=fish]", 1) == 7;
  }

  /** A scan that finds its bracket does not look further. */
  lemma {:induction false} CloseExtend(s: string, t: string, d: nat)
    requires Close(s, d) >= 0
    ensures Close(s + t, d) == Close(s, d)
    decreases |s|
  {
    assert (s + t)[0] == s[0];
    if !(s[0] == ']' && d == 0) {
      assert (s + t)[1..] == s[1..] + t;
      CloseExtend(s[1..], t, Next(s[0], d));
    }
  }

  /** A key, a balanced bracket segment and dot-joined keys split into
      exactly those parts. */
  lemma {:induction false} ParseBracketed(k: string, c: string, keys: seq<string>)
    requires PlainKey(k)
    requires Close(c + "]", 0) == |c|
    requires keys != [] && forall i :: 0 <= i < |keys| ==> PlainKey(keys[i])
    ensures ParseFrom(k + "[" + c + "]." + Join(keys, ".")) == Yields([k, "[" + c + "]"] + keys)
  {
    BracketThenRest(k, c, Join(keys, "."));
    ParseJoin(keys);
  }

  /** A key and a balanced bracket segment come off the front of the
      split, whatever follows the dot behind them. */
  lemma {:induction false} BracketThenRest(k: string, c: string, rest: string)
    requires PlainKey(k)
    requires Close(c + "]", 0) == |c|
    ensures ParseFrom(k + "[" + c + "]." + rest) == Prepend([k, "[" + c + "]"], ParseFrom(rest))
  {
    var q := k + "[" + c + "]." + rest;
    BracketScan(k, c, rest);
    BracketedPieces(k, c, rest);
    ParseFromPieces(q, |k|, |c|, k, "[" + c + "]", rest);
  }

  /** In `k[c].rest` the first stop is the bracket, and its partner is the
      one behind `c`. */
  lemma {:induction false} BracketScan(k: string, c: string, rest: string)
    requires PlainKey(k)
    requires Close(c + "]", 0) == |c|
    ensures var q := k + "[" + c + "]." + rest;
      |k| + |c| + 3 <= |q| && IndexAny(q, Stops) == |k| && q[|k|] == '[' && Close(q[|k| + 1..], 0) == |c|
  {
    var q := k + "[" + c + "]." + rest;
    assert q == k + "[" + (c + "]." + rest);
    IndexAnyBracket(k, c + "]." + rest);
    assert q[|k| + 1..] == (c + "]") + ("." + rest);
    CloseExtend(c + "]", "." + rest, 0);
  }

  /** Where the pieces of `k[c].rest` sit. */
  lemma {:induction false} BracketedPieces(k: string, c: string, rest: string)
    ensures var q := k + "[" + c + "]." + rest;
      q == k + "[" + (c + "]." + rest)
      && q[|k|] == '[' && q[|k| + 1..] == (c + "]") + ("." + rest)
      && q[..|k|] == k && q[|k|..|k| + |c| + 2] == "[" + c + "]"
      && q[|k| + |c| + 3..] == rest
  {
    var q := k + "[" + c + "]." + rest;
    assert q[|k| + 1..] == (c + "]") + ("." + rest);
    assert q[..|k|] == k;
    assert q[|k|..|k| + |c| + 2] == "[" + c + "]";
    assert q[|k| + |c| + 3..] == rest;
  }

  /** One dot step of the split. */
  lemma {:induction false} ParseFromDot(q: string, i: nat)
    requires IndexAny(q, Stops) == i && i < |q| && q[i] != '['
    ensures ParseFrom(q) == Prepend([q[..i]], ParseFrom(q[i + 1..]))
  {
    assert ParseFrom(q) == ParseAt(q, i);
  }

  /** One bracket step of the split. */
  lemma {:induction false} ParseFromBracket(q: string, i: nat, clb: nat)
    requires IndexAny(q, Stops) == i && i < |q| && q[i] == '['
    requires Close(q[i + 1..], 0) == clb && i + clb + 3 <= |q|
    ensures ParseFrom(q) == Prepend([q[..i], q[i..i + clb + 2]], ParseFrom(q[i + clb + 3..]))
  {
    ParseAtBracket(q, i, clb);
  }

  /** The bracket step, with its pieces named by the caller. */
  lemma {:induction false} ParseFromPieces(q: string, i: nat, clb: nat, head: string, br: string, tail: string)
    requires IndexAny(q, Stops) == i && i < |q| && q[i] == '['
    requires Close(q[i + 1..], 0) == clb && i + clb + 3 <= |q|
    requires q[..i] == head && q[i..i + clb + 2] == br && q[i + clb + 3..] == tail
    ensures ParseFrom(q) == Prepend([head, br], ParseFrom(tail))
  {
    ParseFromBracket(q, i, clb);
  }

  lemma ParseAtBracket(q: string, i: nat, clb: nat)
    requires i < |q| && q[i] == '['
    requires Close(q[i + 1..], 0) == clb && i + clb + 3 <= |q|
    ensures ParseAt(q, i) == Prepend([q[..i], q[i..i + clb + 2]], ParseFrom(q[i + clb + 3..]))
  {
  }

  lemma {:induction false} ParseFromPanics(q: string, i: nat, clb: nat)
    requires IndexAny(q, Stops) == i && i < |q| && q[i] == '['
    requires Close(q[i + 1..], 0) == clb && i + clb + 3 > |q|
    ensures ParseFrom(q) == Panics(SliceOutOfRange)
  {
  }

  /** Leading dots make no difference, and a query of dots alone has no
      segments (viewquery.go:10-13). */
  lemma {:induction false} LeadingDots(dots: string, q: string)
    requires forall i :: 0 <= i < |dots| ==> dots[i] == '.'
    ensures ParseQueryString(dots + q) == ParseQueryString(q)
    ensures ParseQueryString(dots) == Yields([])
  {
    TrimLeftDots(dots, q);
    TrimLeftDots(dots, "");
    assert dots + "" == dots;
  }

  lemma {:induction false} TrimLeftDots(dots: string, q: string)
    requires forall i :: 0 <= i < |dots| ==> dots[i] == '.'
    ensures TrimLeft(dots + q, {'.'}) == TrimLeft(q, {'.'})
  {
    if dots == [] {
      assert dots + q == q;
    } else {
      assert (dots + q)[0] == '.';
      assert (dots + q)[1..] == dots[1..] + q;
      TrimLeftDots(dots[1..], q);
    }
  }

  /** A key that the splitter keeps whole: not empty, and with no `.` or
      `[` in it. */
  predicate PlainKey(k: string) {
    k != [] && k[0] != '.' && forall i :: 0 <= i < |k| ==> k[i] !in Stops
  }

  /** Dot-joined plain keys split back into the same keys. */
  lemma {:induction false} ParseJoin(keys: seq<string>)
    requires keys != [] && forall i :: 0 <= i < |keys| ==> PlainKey(keys[i])
    ensures ParseFrom(Join(keys, ".")) == Yields(keys)
  {
    if |keys| == 1 {
      assert Join(keys, ".") == keys[0];
      assert IndexAny(keys[0], Stops) < 0;
      assert [keys[0]] == keys;
    } else {
      var k := keys[0];
      var rest := Join(keys[1..], ".");
      assert Join(keys, ".") == k + "." + rest;
      var q := k + "." + rest;
      assert q[..|k|] == k && q[|k|] == '.';
      assert IndexAny(q, Stops) == |k| by {
        IndexAnyStops(k, rest);
      }
      assert q[|k| + 1..] == rest;
      ParseJoin(keys[1..]);
      assert [k] + keys[1..] == keys;
    }
  }

  lemma {:induction false} IndexAnyStops(k: string, rest: string)
    requires forall i :: 0 <= i < |k| ==> k[i] !in Stops
    ensures IndexAny(k + "." + rest, Stops) == |k|
  {
    if k != [] {
      assert (k + "." + rest)[1..] == k[1..] + "." + rest;
      IndexAnyStops(k[1..], rest);
    }
  }

  /** A query `.k1.k2...kn` of plain keys splits into exactly those keys. */
  lemma {:induction false} ParseDotted(keys: seq<string>)
    requires keys != [] && forall i :: 0 <= i < |keys| ==> PlainKey(keys[i])
    ensures ParseQueryString("." + Join(keys, ".")) == Yields(keys)
  {
    ParseJoin(keys);
    JoinHead(keys);
    OneLeadingDot(Join(keys, "."));
  }

  lemma {:induction false} TrimLeftNoDot(q: string)
    requires q != [] && q[0] != '.'
    ensures TrimLeft(q, {'.'}) == q
  {
  }

  lemma {:induction false} OneLeadingDot(q: string)
    requires q != [] && q[0] != '.'
    ensures ParseQueryString("." + q) == ParseFrom(q)
  {
    LeadingDots(".", q);
    TrimLeftNoDot(q);
  }

  lemma {:induction false} JoinHead(keys: seq<string>)
    requires keys != [] && PlainKey(keys[0])
    ensures Join(keys, ".") != [] && Join(keys, ".")[0] == keys[0][0]
  {
    if |keys| > 1 {
      assert Join(keys, ".") == keys[0] + "." + Join(keys[1..], ".");
    }
  }

  /** A bracket segment that ends the query (`a[5]`, say) makes the Go code
      slice past the end of the string (viewquery.go:29). */
  lemma {:induction false} BracketAtEndPanics(k: string, c: string)
    requires PlainKey(k)
    requires forall i :: 0 <= i < |c| ==> c[i] != '[' && c[i] != ']'
    ensures ParseQueryString(k + "[" + c + "]") == Panics(SliceOutOfRange)
  {
    var q := k + "[" + c + "]";
    TrimLeftStep(q, {'.'});
    assert ParseQueryString(q) == ParseFrom(q);
    BracketAtEnd(k, c);
  }

  lemma {:induction false} BracketAtEnd(k: string, c: string)
    requires PlainKey(k)
    requires forall i :: 0 <= i < |c| ==> c[i] != '[' && c[i] != ']'
    ensures ParseFrom(k + "[" + c + "]") == Panics(SliceOutOfRange)
  {
    var q := k + "[" + c + "]";
    IndexAnyBracket(k, c + "]");
    assert q == k + "[" + (c + "]");
    assert q[|k| + 1..] == c + "]";
    CloseSkip(c + "]", |c|, 0);
    assert (c + "]")[|c|..] == "]";
    ParseFromPanics(q, |k|, |c|);
  }

  /** A bracket that is never closed (`a[b`, say) is an error
      (viewquery.go:24-27). */
  lemma {:induction false} UnclosedBracket(k: string, c: string)
    requires PlainKey(k)
    requires forall i :: 0 <= i < |c| ==> c[i] != '[' && c[i] != ']'
    ensures ParseQueryString(k + "[" + c) == Fails("closing bracket not found")
  {
    var q := k + "[" + c;
    TrimLeftStep(q, {'.'});
    assert ParseQueryString(q) == ParseFrom(q);
    Unclosed(k, c);
  }

  lemma {:induction false} Unclosed(k: string, c: string)
    requires forall i :: 0 <= i < |k| ==> k[i] !in Stops
    requires forall i :: 0 <= i < |c| ==> c[i] != '[' && c[i] != ']'
    ensures ParseFrom(k + "[" + c) == Fails("closing bracket not found")
  {
    var q := k + "[" + c;
    IndexAnyBracket(k, c);
    assert q[|k| + 1..] == c;
    CloseSkip(c, |c|, 0);
    assert c[|c|..] == [];
    assert ParseFrom(q) == ParseAt(q, |k|);
  }

  lemma {:induction false} IndexAnyBracket(k: string, rest: string)
    requires forall i :: 0 <= i < |k| ==> k[i] !in Stops
    ensures IndexAny(k + "[" + rest, Stops) == |k|
  {
    if k != [] {
      assert (k + "[" + rest)[1..] == k[1..] + "[" + rest;
      IndexAnyBracket(k[1..], rest);
    }
  }

  // ---------------------------------------------------------------------
  // Walking a document

  /** A query: split it, then walk the segments from the document. */
  function Query(cur: Value, qstr: string): Outcome<Value>
    decreases |qstr|, 3
  {
    match ParseQueryString(qstr)
    case Yields(segs) => Walk(cur, segs, 0, |qstr|)
    case Fails(m) => Fails(m)
    case Panics(m) => Panics(m)
  }

  /** The walk from segment `i` on: an object is indexed by the segment,
      an array by the member the segment selects, and any other value ends
      the walk with an error. A missing key names the dot-joined path up to
      and including that segment. `n` bounds the segments' lengths. */
  function Walk(cur: Value, segs: seq<string>, i: nat, n: nat): Outcome<Value>
    requires i <= |segs|
    requires forall k :: 0 <= k < |segs| ==> |segs[k]| <= n
    decreases n, 2, |segs| - i
  {
    if i == |segs| then Yields(cur)
    else match cur
      case Object(o) =>
        if segs[i] in o then Walk(o[segs[i]], segs, i + 1, n)
        else Fails("key not found: " + Join(segs[..i + 1], "."))
      case Array(a) =>
        (match Select(a, segs[i])
         case Yields(m) => if 0 <= m < |a| then Walk(a[m], segs, i + 1, n) else Panics(IndexOutOfRange)
         case Fails(msg) => Fails(msg)
         case Panics(why) => Panics(why))
      case _ => Fails("end of the line?")
  }

  /** The array member a segment selects: `[N]` by position, `[q=v]` by
      the first member whose sub-query `q` yields the string `v`. An empty
      segment makes the Go code index an empty string. */
  function Select(a: seq<Value>, q: string): Outcome<int>
    decreases |q|, 1
  {
    if q == [] then Panics(IndexOutOfRange)
    else if q[0] != '[' || q[|q| - 1] != ']' then Fails("must use [N] notation for accessing arrays")
    else
      var nums := Trim(q, {'[', ']'});
      if nums == [] then Fails("don't currently support queries on multiple array members")
      else if '=' in nums then
        var parts := Split(nums, '=');
        if |parts| != 2 then Fails("array queries must contain a single equality operator")
        else Matching(a, TrimSpace(parts[0]), TrimSpace(parts[1]), 0)
      else match Atoi(nums)
        case None => Fails(AtoiSyntaxError(nums))
        case Some(m) => Yields(m)
  }

  /** `matchChild` from member `k` on: the first member whose sub-query
      yields the string `val`. A panic in a sub-query ends the search. */
  function Matching(a: seq<Value>, query: string, val: string, k: nat): Outcome<int>
    requires k <= |a|
    decreases |query|, 4, |a| - k
  {
    if k == |a| then Fails("no child matching query found")
    else
      var o := Query(a[k], query);
      if o.Panics? then Panics(o.reason)
      else if o == Yields(Str(val)) then Yields(k)
      else Matching(a, query, val, k + 1)
  }

  /** `processJsonQuery` (viewquery.go:57-110). */
  method ProcessJsonQuery(cur0: Value, qstr: string) returns (r: Outcome<Value>)
    ensures r == Query(cur0, qstr)
    decreases |qstr|, 3
  {
    var parsed := ParseQuery(qstr);
    if !parsed.Yields? {
      return Carry(parsed);
    }
    var query := parsed.value;
    var cur := cur0;
    var i := 0;
    while i < |query|
      invariant 0 <= i <= |query|
      invariant Walk(cur0, query, 0, |qstr|) == Walk(cur, query, i, |qstr|)
    {
      var done, res, next := WalkStep(cur, query, i, |qstr|);
      if done {
        return res;
      }
      cur, i := next, i + 1;
    }
    return Yields(cur);
  }

  /** One round of `processJsonQuery`'s loop (viewquery.go:64-106): either
      the walk ends at segment `i` with `r`, or it goes on from `next`. */
  method WalkStep(cur: Value, query: seq<string>, i: nat, n: nat) returns (done: bool, r: Outcome<Value>, next: Value)
    requires i < |query|
    requires forall k :: 0 <= k < |query| ==> |query[k]| <= n
    ensures done ==> r == Walk(cur, query, i, n)
    ensures !done ==> Walk(cur, query, i, n) == Walk(next, query, i + 1, n)
    decreases n, 2
  {
    var q := query[i];
    next := cur;
    match cur {
      case Object(o) =>
        if q !in o {
          return true, Fails("key not found: " + Join(query[..i + 1], ".")), cur;
        }
        return false, Yields(cur), o[q];
      case Array(a) =>
        var sel := SelectMember(a, q);
        if !sel.Yields? {
          return true, Carry(sel), cur;
        }
        if !(0 <= sel.value < |a|) {
          return true, Panics(IndexOutOfRange), cur;
        }
        return false, Yields(cur), a[sel.value];
      case _ =>
        return true, Fails("end of the line?"), cur;
    }
  }

  /** The array branch of `processJsonQuery` (viewquery.go:72-101). */
  method SelectMember(a: seq<Value>, q: string) returns (r: Outcome<int>)
    ensures r == Select(a, q)
    decreases |q|, 1
  {
    if |q| == 0 {
      return Panics(IndexOutOfRange);
    }
    if q[0] != '[' || q[|q| - 1] != ']' {
      return Fails("must use [N] notation for accessing arrays");
    }
    var nums := Trim(q, {'[', ']'});
    if nums == "" {
      return Fails("don't currently support queries on multiple array members");
    }
    if '=' in nums {
      var parts := Split(nums, '=');
      if |parts| != 2 {
        return Fails("array queries must contain a single equality operator");
      }
      r := MatchChild(a, TrimSpace(parts[0]), TrimSpace(parts[1]));
      return;
    }
    match Atoi(nums) {
      case None => return Fails(AtoiSyntaxError(nums));
      case Some(n) => return Yields(n);
    }
  }

  /** `matchChild` (viewquery.go:112-120). */
  method MatchChild(a: seq<Value>, query: string, val: string) returns (r: Outcome<int>)
    ensures r == Matching(a, query, val, 0)
    decreases |query|, 4
  {
    var k := 0;
    while k < |a|
      invariant 0 <= k <= |a|
      invariant Matching(a, query, val, 0) == Matching(a, query, val, k)
    {
      var out := ProcessJsonQuery(a[k], query);
      if out.Panics? {
        return Panics(out.reason);
      }
      if out == Yields(Str(val)) {
        return Yields(k);
      }
      k := k + 1;
    }
    return Fails("no child matching query found");
  }

  // ---------------------------------------------------------------------
  // What a query means

  /** The value a path of keys reaches through nested objects, if every
      key is present. */
  function Follow(cur: Value, keys: seq<string>): Option<Value>
    decreases |keys|
  {
    if keys == [] then Some(cur)
    else match cur
      case Object(o) => if keys[0] in o then Follow(o[keys[0]], keys[1..]) else None
      case _ => None
  }

  /** A query of dots alone leaves the document as it is. */
  lemma {:induction false} QueryDotsOnly(cur: Value, dots: string)
    requires forall i :: 0 <= i < |dots| ==> dots[i] == '.'
    ensures Query(cur, dots) == Yields(cur)
  {
    LeadingDots(dots, []);
  }

  /** A dotted path of plain keys succeeds exactly when every key is found
      through nested objects, and then yields the value they reach. */
  lemma {:induction false} QueryPath(cur: Value, keys: seq<string>)
    requires keys != [] && forall i :: 0 <= i < |keys| ==> PlainKey(keys[i])
    ensures Query(cur, "." + Join(keys, ".")).Yields? <==> Follow(cur, keys).Some?
    ensures Follow(cur, keys).Some? ==> Query(cur, "." + Join(keys, ".")) == Yields(Follow(cur, keys).value)
  {
    var qstr := "." + Join(keys, ".");
    ParseDotted(keys);
    WalkPath(cur, keys, 0, |qstr|);
  }

  lemma {:induction false} WalkPath(cur: Value, segs: seq<string>, i: nat, n: nat)
    requires i <= |segs|
    requires forall k :: 0 <= k < |segs| ==> |segs[k]| <= n && PlainKey(segs[k])
    ensures Walk(cur, segs, i, n).Yields? <==> Follow(cur, segs[i..]).Some?
    ensures Follow(cur, segs[i..]).Some? ==> Walk(cur, segs, i, n) == Yields(Follow(cur, segs[i..]).value)
    decreases |segs| - i
  {
    if i < |segs| {
      assert segs[i..][1..] == segs[i + 1..];
      match cur
      case Object(o) =>
        if segs[i] in o {
          WalkPath(o[segs[i]], segs, i + 1, n);
        }
      case Array(a) =>
        assert segs[i][0] != '[';
      case _ =>
    }
  }

  /** A key missing from an object ends the query with an error naming
      the dot-joined path up to that key. */
  lemma {:induction false} QueryMissingKey(cur: Value, keys: seq<string>, j: nat)
    requires keys != [] && forall i :: 0 <= i < |keys| ==> PlainKey(keys[i])
    requires j < |keys| && Follow(cur, keys[..j]).Some?
    requires Follow(cur, keys[..j]).value.Object? && keys[j] !in Follow(cur, keys[..j]).value.fields
    ensures Query(cur, "." + Join(keys, ".")) == Fails("key not found: " + Join(keys[..j + 1], "."))
  {
    var qstr := "." + Join(keys, ".");
    ParseDotted(keys);
    WalkMissing(cur, keys, 0, j, |qstr|);
  }

  lemma {:induction false} WalkMissing(cur: Value, segs: seq<string>, i: nat, j: nat, n: nat)
    requires i <= j < |segs|
    requires forall k :: 0 <= k < |segs| ==> |segs[k]| <= n
    requires Follow(cur, segs[i..j]).Some?
    requires Follow(cur, segs[i..j]).value.Object? && segs[j] !in Follow(cur, segs[i..j]).value.fields
    ensures Walk(cur, segs, i, n) == Fails("key not found: " + Join(segs[..j + 1], "."))
    decreases j - i
  {
    if i < j {
      assert segs[i..j][1..] == segs[i + 1..j];
      WalkMissing(cur.fields[segs[i]], segs, i + 1, j, n);
    }
  }

  /** `[N]` selects member N whatever the array holds. */
  /** A plain key applied to an array is an error (viewquery.go:72-74):
      `.k.x` on `{"k": [...]}`, say. */
  lemma {:induction false} QueryUnbracketed(a: seq<Value>, k: string, keys: seq<string>)
    requires PlainKey(k) && keys != [] && forall j :: 0 <= j < |keys| ==> PlainKey(keys[j])
    ensures Query(Object(map[k := Array(a)]), "." + Join([k] + keys, ".")) ==
      Fails("must use [N] notation for accessing arrays")
  {
    var q, segs := "." + Join([k] + keys, "."), [k] + keys;
    assert PlainKey(keys[0]);
    ParseDotted(segs);
    QueryWalk(Object(map[k := Array(a)]), q, segs);
    WalkArrayFails(a, k, segs, |q|);
  }

  /** `[]` on an array is an error (viewquery.go:76-79): `.k[].x` on
      `{"k": [...]}`, say. */
  lemma {:induction false} QueryAllMembers(a: seq<Value>, k: string, keys: seq<string>)
    requires PlainKey(k) && keys != [] && forall j :: 0 <= j < |keys| ==> PlainKey(keys[j])
    ensures Query(Object(map[k := Array(a)]), "." + (k + "[]." + Join(keys, "."))) ==
      Fails("don't currently support queries on multiple array members")
  {
    SelectEmpty(a);
    CloseSkip("]", 0, 0);
    assert k + "[" + "" + "]." == k + "[].";
    QueryArraySegment(a, k, "", keys);
  }

  lemma {:induction false} SelectEmpty(a: seq<Value>)
    ensures Select(a, "[]") == Fails("don't currently support queries on multiple array members")
  {
    var cut := {'[', ']'};
    TrimLeftStep("[]", cut);
    TrimLeftStep("]", cut);
    TrimLeftStep("", cut);
    assert Trim("[]", cut) == [];
  }

  /** A match with more than one `=` is an error (viewquery.go:82-86):
      `.k[a=b=c].x` on `{"k": [...]}`, say. */
  lemma {:induction false} QueryTwoEquals(a: seq<Value>, k: string, c: string, keys: seq<string>)
    requires PlainKey(k) && keys != [] && forall j :: 0 <= j < |keys| ==> PlainKey(keys[j])
    requires forall i :: 0 <= i < |c| ==> c[i] != '[' && c[i] != ']'
    requires '=' in c && |Split(c, '=')| != 2
    ensures Query(Object(map[k := Array(a)]), "." + (k + "[" + c + "]." + Join(keys, "."))) ==
      Fails("array queries must contain a single equality operator")
  {
    SelectManyEquals(a, c);
    CloseBare(c);
    QueryArraySegment(a, k, c, keys);
  }

  lemma {:induction false} SelectManyEquals(a: seq<Value>, c: string)
    requires forall i :: 0 <= i < |c| ==> c[i] != '[' && c[i] != ']'
    requires '=' in c && |Split(c, '=')| != 2
    ensures Select(a, "[" + c + "]") == Fails("array queries must contain a single equality operator")
  {
    assert "[" + c + "]" == ['['] + c + [']'];
    TrimWrapped('[', c, ']', {'[', ']'});
  }

  /** Without brackets of its own, `c]` closes at its last character. */
  lemma {:induction false} CloseBare(c: string)
    requires forall i :: 0 <= i < |c| ==> c[i] != '[' && c[i] != ']'
    ensures Close(c + "]", 0) == |c|
  {
    CloseSkip(c + "]", |c|, 0);
    assert (c + "]")[|c|..] == "]";
  }

  /** A bracket segment the array refuses ends the query with the array's
      error. */
  lemma {:induction false} QueryArraySegment(a: seq<Value>, k: string, c: string, keys: seq<string>)
    requires PlainKey(k) && keys != [] && forall j :: 0 <= j < |keys| ==> PlainKey(keys[j])
    requires Close(c + "]", 0) == |c|
    requires Select(a, "[" + c + "]").Fails?
    ensures Query(Object(map[k := Array(a)]), "." + (k + "[" + c + "]." + Join(keys, "."))) ==
      Fails(Select(a, "[" + c + "]").msg)
  {
    var q, segs := "." + (k + "[" + c + "]." + Join(keys, ".")), [k, "[" + c + "]"] + keys;
    QueryBracketed(k, c, keys);
    QueryWalk(Object(map[k := Array(a)]), q, segs);
    WalkArrayFails(a, k, segs, |q|);
  }

  /** A query's split yielding `segs` walks those segments. */
  lemma {:induction false} QueryWalk(cur: Value, q: string, segs: seq<string>)
    requires ParseQueryString(q) == Yields(segs)
    ensures forall k :: 0 <= k < |segs| ==> |segs[k]| <= |q|
    ensures Query(cur, q) == Walk(cur, segs, 0, |q|)
  {
  }

  /** A walk from `{k: a}` along `k` and a segment the array refuses ends
      with the array's error. */
  lemma {:induction false} WalkArrayFails(a: seq<Value>, k: string, segs: seq<string>, n: nat)
    requires |segs| >= 2 && segs[0] == k && Select(a, segs[1]).Fails?
    requires forall j :: 0 <= j < |segs| ==> |segs[j]| <= n
    ensures Walk(Object(map[k := Array(a)]), segs, 0, n) == Fails(Select(a, segs[1]).msg)
  {
    assert Walk(Object(map[k := Array(a)]), segs, 0, n) == Walk(Array(a), segs, 1, n);
  }

  lemma {:induction false} SelectIndex(a: seq<Value>, n: nat)
    ensures Select(a, "[" + NatToString(n) + "]") == Yields(n)
  {
    var s := NatToString(n);
    var q := "[" + s + "]";
    assert '0' <= s[0] <= '9' && '0' <= s[|s| - 1] <= '9';
    TrimWrapped('[', s, ']', {'[', ']'});
    assert Trim(q, {'[', ']'}) == s;
    assert '=' !in s;
    AtoiNatToString(n);
    assert Atoi(s) == Some(n);
  }

  /** Member N of an array is where the walk goes on when N is in range;
      past the end the walk panics. */
  lemma {:induction false} WalkIndex(a: seq<Value>, segs: seq<string>, i: nat, n: nat, m: nat)
    requires i < |segs| && segs[i] == "[" + NatToString(m) + "]"
    requires forall k :: 0 <= k < |segs| ==> |segs[k]| <= n
    ensures m < |a| ==> Walk(Array(a), segs, i, n) == Walk(a[m], segs, i + 1, n)
    ensures m >= |a| ==> Walk(Array(a), segs, i, n) == Panics(IndexOutOfRange)
  {
    SelectIndex(a, m);
  }

  /** `[q=v]` selects the first member whose sub-query yields the string
      `v`, provided no member before it panics. */
  lemma {:induction false} MatchingFirst(a: seq<Value>, query: string, val: string, k: nat)
    requires k <= |a|
    ensures var r := Matching(a, query, val, k);
      r.Yields? ==>
        k <= r.value < |a| && Query(a[r.value], query) == Yields(Str(val)) &&
        forall m :: k <= m < r.value ==> !Query(a[m], query).Panics? && Query(a[m], query) != Yields(Str(val))
    decreases |a| - k
  {
    if k < |a| {
      var o := Query(a[k], query);
      if !o.Panics? && o != Yields(Str(val)) {
        MatchingSkip(a, query, val, k);
        MatchingFirst(a, query, val, k + 1);
      }
    }
  }

  /** A member that neither panics nor matches is passed over. */
  lemma MatchingSkip(a: seq<Value>, query: string, val: string, k: nat)
    requires k < |a| && !Query(a[k], query).Panics? && Query(a[k], query) != Yields(Str(val))
    ensures Matching(a, query, val, k) == Matching(a, query, val, k + 1)
  {
  }

  /** The search fails exactly when no member matches and none panics. */
  lemma {:induction false} MatchingNone(a: seq<Value>, query: string, val: string, k: nat)
    requires k <= |a|
    ensures Matching(a, query, val, k).Fails? <==>
      forall m :: k <= m < |a| ==> !Query(a[m], query).Panics? && Query(a[m], query) != Yields(Str(val))
    decreases |a| - k
  {
    if k < |a| {
      MatchingNone(a, query, val, k + 1);
    }
  }
}

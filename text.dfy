/**
  String building blocks of the emitter: appending fragments to a `String`
  accumulator (or collecting an iterator of `String`s), `join`, decimal
  rendering of an integer in a format string, and `str::lines`.
*/
module Text {

  /** `s` holds `t` starting at offset `k`. */
  predicate OccursAt(s: string, t: string, k: nat) {
    k + |t| <= |s| && s[k..k + |t|] == t
  }

  /** `s` ends with `t`. */
  predicate EndsWith(s: string, t: string) {
    |t| <= |s| && s[|s| - |t|..] == t
  }

  lemma EndsWithSuffix(p: string, t: string)
    ensures EndsWith(p + t, t)
  {
    assert (p + t)[|p + t| - |t|..] == t;
  }

  /** `items` sit in `s` at offsets `offs`, one after another, without overlapping. */
  ghost predicate Placed(s: string, items: seq<string>, offs: seq<nat>)
    requires |offs| == |items|
  {
    && (forall i {:trigger offs[i]} :: 0 <= i < |items| ==> OccursAt(s, items[i], offs[i]))
    && (forall i, j {:trigger offs[i], offs[j]} :: 0 <= i < j < |items| ==> offs[i] + |items[i]| <= offs[j])
  }

  /** Every one of `items` occurs in `s`, in the order given and without overlapping. */
  ghost predicate AppearInOrder(s: string, items: seq<string>) {
    exists offs: seq<nat> :: |offs| == |items| && Placed(s, items, offs)
  }

  lemma PlacedInOrder(s: string, items: seq<string>, offs: seq<nat>)
    requires |offs| == |items| && Placed(s, items, offs)
    ensures AppearInOrder(s, items)
  {
  }

  lemma SliceInContext(p: string, s: string, q: string, a: nat, b: nat)
    requires a <= b <= |s|
    ensures (p + s + q)[|p| + a..|p| + b] == s[a..b]
  {
    var w := p + s + q;
    assert w[|p|..|p| + |s|] == s;
    assert w[|p| + a..|p| + b] == w[|p|..|p| + |s|][a..b];
  }

  /** The offsets of `xs + ys` in `a + b`: those of `xs` in `a`, then those of `ys` in `b` moved past `a`. */
  function AppendOffsets(a: string, ox: seq<nat>, oy: seq<nat>): (offs: seq<nat>)
    ensures |offs| == |ox| + |oy|
    ensures forall i :: 0 <= i < |ox| ==> offs[i] == ox[i]
    ensures forall j :: 0 <= j < |oy| ==> offs[|ox| + j] == oy[j] + |a|
  {
    ox + seq(|oy|, j requires 0 <= j < |oy| => oy[j] + |a|)
  }

  lemma PlacedAppendOccurs(a: string, xs: seq<string>, ox: seq<nat>, b: string, ys: seq<string>, oy: seq<nat>)
    requires |ox| == |xs| && Placed(a, xs, ox) && |oy| == |ys| && Placed(b, ys, oy)
    ensures forall i :: 0 <= i < |xs| + |ys| ==> OccursAt(a + b, (xs + ys)[i], AppendOffsets(a, ox, oy)[i])
  {
    var offs, items := AppendOffsets(a, ox, oy), xs + ys;
    forall i | 0 <= i < |items|
      ensures OccursAt(a + b, items[i], offs[i])
    {
      if i < |xs| {
        assert items[i] == xs[i] && offs[i] == ox[i];
        assert OccursAt(a, xs[i], ox[i]);
        SliceInContext("", a, b, ox[i], ox[i] + |xs[i]|);
        assert "" + a + b == a + b;
      } else {
        var j := i - |xs|;
        assert items[i] == ys[j] && offs[i] == oy[j] + |a|;
        assert OccursAt(b, ys[j], oy[j]);
        SliceInContext(a, b, "", oy[j], oy[j] + |ys[j]|);
        assert a + b + "" == a + b;
      }
    }
  }

  lemma PlacedAppendOrdered(a: string, xs: seq<string>, ox: seq<nat>, b: string, ys: seq<string>, oy: seq<nat>)
    requires |ox| == |xs| && Placed(a, xs, ox) && |oy| == |ys| && Placed(b, ys, oy)
    ensures forall i, j :: 0 <= i < j < |xs| + |ys| ==>
      AppendOffsets(a, ox, oy)[i] + |(xs + ys)[i]| <= AppendOffsets(a, ox, oy)[j]
  {
    var offs, items := AppendOffsets(a, ox, oy), xs + ys;
    forall i, j | 0 <= i < j < |items|
      ensures offs[i] + |items[i]| <= offs[j]
    {
      if j < |xs| {
        assert offs[i] == ox[i] && offs[j] == ox[j] && items[i] == xs[i];
        assert ox[i] + |xs[i]| <= ox[j];
      } else if i >= |xs| {
        var i', j' := i - |xs|, j - |xs|;
        assert offs[i] == oy[i'] + |a| && offs[j] == oy[j'] + |a| && items[i] == ys[i'];
        assert oy[i'] + |ys[i']| <= oy[j'];
      } else {
        assert offs[i] == ox[i] && items[i] == xs[i] && offs[j] == oy[j - |xs|] + |a|;
        assert OccursAt(a, xs[i], ox[i]);
      }
    }
  }

  /** Items in order in `a`, then items in order in `b`: all in order in `a + b`. */
  lemma InOrderAppend(a: string, xs: seq<string>, b: string, ys: seq<string>)
    requires AppearInOrder(a, xs) && AppearInOrder(b, ys)
    ensures AppearInOrder(a + b, xs + ys)
  {
    var ox: seq<nat> :| |ox| == |xs| && Placed(a, xs, ox);
    var oy: seq<nat> :| |oy| == |ys| && Placed(b, ys, oy);
    PlacedAppendOccurs(a, xs, ox, b, ys, oy);
    PlacedAppendOrdered(a, xs, ox, b, ys, oy);
    PlacedInOrder(a + b, xs + ys, AppendOffsets(a, ox, oy));
  }

  /** A string holds itself. */
  lemma InOrderSelf(s: string)
    ensures AppearInOrder(s, [s])
  {
    assert OccursAt(s, s, 0) by { assert s[0..|s|] == s; }
    assert Placed(s, [s], [0]);
  }


  lemma InOrderEmpty(s: string)
    ensures AppearInOrder(s, [])
  {
    PlacedInOrder(s, [], []);
  }

  /** Text around a string does not disturb the order of what occurs in it. */
  lemma InOrderInContext(p: string, s: string, q: string, items: seq<string>)
    requires AppearInOrder(s, items)
    ensures AppearInOrder(p + s + q, items)
  {
    InOrderEmpty(p);
    InOrderEmpty(q);
    InOrderAppend(p, [], s, items);
    assert [] + items == items;
    InOrderAppend(p + s, items, q, []);
    assert items + [] == items;
  }

  lemma InOrderExtendLeft(p: string, s: string, items: seq<string>)
    requires AppearInOrder(s, items)
    ensures AppearInOrder(p + s, items)
  {
    InOrderInContext(p, s, "", items);
    assert p + s + "" == p + s;
  }

  lemma InOrderExtendRight(s: string, q: string, items: seq<string>)
    requires AppearInOrder(s, items)
    ensures AppearInOrder(s + q, items)
  {
    InOrderInContext("", s, q, items);
    assert "" + s + q == s + q;
  }

  /** Appending a separator and one more item keeps the items before it in order. */
  lemma InOrderSnoc(s: string, items: seq<string>, sep: string, t: string)
    requires AppearInOrder(s, items)
    ensures AppearInOrder(s + sep + t, items + [t])
  {
    InOrderSelf(t);
    InOrderInContext(sep, t, "", [t]);
    assert sep + t + "" == sep + t;
    InOrderAppend(s, items, sep + t, [t]);
    assert s + (sep + t) == s + sep + t;
  }

  lemma InOrderSnocEq(s: string, items: seq<string>, t: string, s': string, items': seq<string>)
    requires AppearInOrder(s, items) && s' == s + t && items' == items + [t]
    ensures AppearInOrder(s', items')
  {
    InOrderSnoc(s, items, "", t);
    assert s + "" + t == s';
  }

  /** A string in front of the items goes before them. */
  lemma InOrderCons(t: string, sep: string, s: string, items: seq<string>)
    requires AppearInOrder(s, items)
    ensures AppearInOrder(t + sep + s, [t] + items)
  {
    InOrderSelf(t);
    InOrderInContext("", t, sep, [t]);
    assert "" + t + sep == t + sep;
    InOrderAppend(t + sep, [t], s, items);
  }

  // ---------------------------------------------------------------------------
  // Concatenation

  /** The fragments of `ss` appended one after another to an empty accumulator. */
  function Concat(ss: seq<string>): string {
    if ss == [] then "" else Concat(ss[..|ss| - 1]) + ss[|ss| - 1]
  }

  lemma {:induction false} ConcatAppend(a: seq<string>, b: seq<string>)
    ensures Concat(a + b) == Concat(a) + Concat(b)
    decreases |b|
  {
    if b == [] {
      assert a + b == a;
    } else {
      var n := |b| - 1;
      assert (a + b)[..|a + b| - 1] == a + b[..n];
      assert (a + b)[|a + b| - 1] == b[n];
      ConcatAppend(a, b[..n]);
    }
  }

  lemma ConcatCons(x: string, ss: seq<string>)
    ensures Concat([x] + ss) == x + Concat(ss)
  {
    ConcatAppend([x], ss);
    assert Concat([x]) == Concat([]) + x;
  }

  /** Each fragment occurs in the concatenation, in order. */
  lemma {:induction false} ConcatInOrder(ss: seq<string>)
    ensures AppearInOrder(Concat(ss), ss)
    decreases |ss|
  {
    if ss == [] {
      InOrderEmpty("");
    } else {
      var n := |ss| - 1;
      ConcatInOrder(ss[..n]);
      assert ss == ss[..n] + [ss[n]];
      InOrderSnocEq(Concat(ss[..n]), ss[..n], ss[n], Concat(ss), ss);
    }
  }

  // ---------------------------------------------------------------------------
  // Join

  /** The items of `ss` with `sep` between every two neighbours (Rust's `join`). */
  function Join(ss: seq<string>, sep: string): string {
    if ss == [] then ""
    else if |ss| == 1 then ss[0]
    else Join(ss[..|ss| - 1], sep) + sep + ss[|ss| - 1]
  }

  /** Each item occurs in the joined text, in order. */
  lemma {:induction false} JoinInOrder(ss: seq<string>, sep: string)
    ensures AppearInOrder(Join(ss, sep), ss)
    decreases |ss|
  {
    if ss == [] {
      InOrderEmpty("");
    } else if |ss| == 1 {
      InOrderSnoc("", [], "", ss[0]);
      assert [] + [ss[0]] == ss;
    } else {
      var n := |ss| - 1;
      JoinInOrder(ss[..n], sep);
      InOrderSnoc(Join(ss[..n], sep), ss[..n], sep, ss[n]);
      assert ss[..n] + [ss[n]] == ss;
    }
  }

  /** Dropping items from the middle keeps the rest in order. */
  lemma InOrderDrop(s: string, xs: seq<string>, ys: seq<string>, zs: seq<string>)
    requires AppearInOrder(s, xs + ys + zs)
    ensures AppearInOrder(s, xs + zs)
  {
    var all := xs + ys + zs;
    var offs: seq<nat> :| |offs| == |all| && Placed(s, all, offs);
    var kept := xs + zs;
    var o: seq<nat> := seq(|kept|, i requires 0 <= i < |kept| => offs[if i < |xs| then i else i + |ys|]);
    forall i | 0 <= i < |kept|
      ensures OccursAt(s, kept[i], o[i])
    {
      var k := if i < |xs| then i else i + |ys|;
      assert kept[i] == all[k];
      assert OccursAt(s, all[k], offs[k]);
    }
    forall i, j | 0 <= i < j < |kept|
      ensures o[i] + |kept[i]| <= o[j]
    {
      var k := if i < |xs| then i else i + |ys|;
      var l := if j < |xs| then j else j + |ys|;
      assert kept[i] == all[k];
      assert offs[k] + |all[k]| <= offs[l];
    }
    PlacedInOrder(s, kept, o);
  }

  lemma InOrderPrefix(s: string, xs: seq<string>, ys: seq<string>)
    requires AppearInOrder(s, xs + ys)
    ensures AppearInOrder(s, xs)
  {
    assert xs + ys + [] == xs + ys;
    InOrderDrop(s, xs, ys, []);
    assert xs + [] == xs;
  }

  lemma InOrderSuffix(s: string, xs: seq<string>, ys: seq<string>)
    requires AppearInOrder(s, xs + ys)
    ensures AppearInOrder(s, ys)
  {
    assert [] + xs + ys == xs + ys;
    InOrderDrop(s, [], xs, ys);
    assert [] + ys == ys;
  }

  /** The first and the last of a run of items are in order. */
  lemma InOrderEnds(s: string, x: string, h: string, mid: seq<string>, y: string)
    requires AppearInOrder(s, [x, h] + mid + [y])
    ensures AppearInOrder(s, [x, y])
  {
    assert [x, h] + mid + [y] == [x] + ([h] + mid) + [y];
    InOrderDrop(s, [x], [h] + mid, [y]);
    assert [x] + [y] == [x, y];
  }

  /** `[ds[0], ms[0], ds[1], ms[1], ...]`: a label and its text, item by item. */
  function Interleave(ds: seq<string>, ms: seq<string>): (r: seq<string>)
    requires |ds| == |ms|
    ensures |r| == 2 * |ds|
  {
    if ds == [] then [] else Interleave(ds[..|ds| - 1], ms[..|ms| - 1]) + [ds[|ds| - 1], ms[|ms| - 1]]
  }

  /** Pieces each holding a pair, concatenated: all the pairs, in order. */
  lemma {:induction false} ConcatPairsInOrder(ss: seq<string>, ds: seq<string>, ms: seq<string>)
    requires |ss| == |ds| == |ms|
    requires forall i :: 0 <= i < |ss| ==> AppearInOrder(ss[i], [ds[i], ms[i]])
    ensures AppearInOrder(Concat(ss), Interleave(ds, ms))
    decreases |ss|
  {
    if ss == [] {
      InOrderEmpty("");
    } else {
      var n := |ss| - 1;
      ConcatPairsInOrder(ss[..n], ds[..n], ms[..n]);
      InOrderAppend(Concat(ss[..n]), Interleave(ds[..n], ms[..n]), ss[n], [ds[n], ms[n]]);
    }
  }

  /** The pairs `ds[i], ms[i]` in order, with `sep` in front of every pair but the first. */
  function SepPairs(ds: seq<string>, ms: seq<string>, sep: string): (r: seq<string>)
    requires |ds| == |ms|
    ensures |r| == if ds == [] then 0 else 3 * |ds| - 1
  {
    if ds == [] then []
    else if |ds| == 1 then [ds[0], ms[0]]
    else SepPairs(ds[..|ds| - 1], ms[..|ms| - 1], sep) + [sep, ds[|ds| - 1], ms[|ms| - 1]]
  }

  /** A separator in front of a piece holding a pair: the separator, then the pair. */
  lemma SepThenPair(j: string, items: seq<string>, sep: string, s: string, d: string, m: string)
    requires AppearInOrder(j, items) && AppearInOrder(s, [d, m])
    ensures AppearInOrder(j + sep + s, items + [sep, d, m])
  {
    InOrderCons(sep, "", s, [d, m]);
    assert sep + "" + s == sep + s;
    InOrderAppend(j, items, sep + s, [sep, d, m]);
    assert j + (sep + s) == j + sep + s;
  }

  /** Pieces each holding a pair, joined: all the pairs, in order, with the separator between them. */
  lemma {:induction false} JoinPairsInOrder(ss: seq<string>, sep: string, ds: seq<string>, ms: seq<string>)
    requires |ss| == |ds| == |ms|
    requires forall i :: 0 <= i < |ss| ==> AppearInOrder(ss[i], [ds[i], ms[i]])
    ensures AppearInOrder(Join(ss, sep), SepPairs(ds, ms, sep))
    decreases |ss|
  {
    if ss == [] {
      InOrderEmpty("");
    } else if |ss| == 1 {
    } else {
      var n := |ss| - 1;
      JoinPairsInOrder(ss[..n], sep, ds[..n], ms[..n]);
      SepThenPair(Join(ss[..n], sep), SepPairs(ds[..n], ms[..n], sep), sep, ss[n], ds[n], ms[n]);
    }
  }

  // ---------------------------------------------------------------------------
  // Decimal numbers

  predicate IsDigit(c: char) {
    '0' <= c <= '9'
  }

  predicate AllDigits(s: string) {
    forall k :: 0 <= k < |s| ==> IsDigit(s[k])
  }

  function DigitChar(d: nat): (c: char)
    requires d < 10
    ensures IsDigit(c) && c as int - '0' as int == d
  {
    (d + '0' as int) as char
  }

  /** The decimal rendering of `n`, as `{}` formats an unsigned integer. */
  function Decimal(n: nat): (r: string)
    ensures |r| >= 1 && AllDigits(r)
    ensures r[0] == '0' ==> n == 0
  {
    if n < 10 then [DigitChar(n)] else Decimal(n / 10) + [DigitChar(n % 10)]
  }

  /** The value of a string of decimal digits. */
  function ParseDecimal(s: string): nat
    requires AllDigits(s)
  {
    if s == [] then 0
    else ParseDecimal(s[..|s| - 1]) * 10 + (s[|s| - 1] as int - '0' as int)
  }

  /** Reading the rendering back gives the number: the text denotes `n`. */
  lemma {:induction false} DecimalRoundTrip(n: nat)
    ensures ParseDecimal(Decimal(n)) == n
  {
    if n >= 10 {
      DecimalRoundTrip(n / 10);
      var s := Decimal(n);
      assert s[..|s| - 1] == Decimal(n / 10);
    }
  }

  /** Different numbers are rendered differently. */
  lemma DecimalInjective(m: nat, n: nat)
    requires m != n
    ensures Decimal(m) != Decimal(n)
  {
    DecimalRoundTrip(m);
    DecimalRoundTrip(n);
  }

  // ---------------------------------------------------------------------------
  // Lines

  /** The first position of `c` in `s`. */
  function FirstIndex(s: string, c: char): (k: nat)
    requires c in s
    ensures k < |s| && s[k] == c
    ensures forall j :: 0 <= j < k ==> s[j] != c
  {
    if s[0] == c then 0 else 1 + FirstIndex(s[1..], c)
  }

  /** `line` with one trailing carriage return removed, if it has one. */
  function StripCr(line: string): string {
    if line != [] && line[|line| - 1] == '\r' then line[..|line| - 1] else line
  }

  /**
    The lines of `s` as `str::lines` yields them: split after every line feed,
    drop the line feed and then one carriage return before it; a last line
    without a line feed is kept as it is, and a final line feed opens no
    further line.
  */
  function Lines(s: string): (ls: seq<string>)
    ensures forall k :: 0 <= k < |ls| ==> '\n' !in ls[k]
    decreases |s|
  {
    if s == [] then []
    else if '\n' !in s then [s]
    else
      var i := FirstIndex(s, '\n');
      [StripCr(s[..i])] + Lines(s[i + 1..])
  }

  /** Each line followed by a line feed. */
  function Terminated(ls: seq<string>): (ts: seq<string>)
    ensures |ts| == |ls|
  {
    if ls == [] then [] else [ls[0] + "\n"] + Terminated(ls[1..])
  }

  lemma TerminatedCons(x: string, ls: seq<string>)
    ensures Terminated([x] + ls) == [x + "\n"] + Terminated(ls)
    ensures Concat(Terminated([x] + ls)) == x + "\n" + Concat(Terminated(ls))
  {
    assert ([x] + ls)[1..] == ls;
    ConcatCons(x + "\n", Terminated(ls));
  }

  /** `s` with a line feed added unless it is empty or already ends in one. */
  function WithFinalNewline(s: string): string {
    if s == [] || s[|s| - 1] == '\n' then s else s + "\n"
  }

  /** One step of `Lines`: the first line, then the lines after its line feed. */
  lemma LinesStep(s: string) returns (i: nat)
    requires '\n' in s
    ensures i < |s| && s[i] == '\n' && '\n' !in s[..i]
    ensures Lines(s) == [StripCr(s[..i])] + Lines(s[i + 1..])
  {
    i := FirstIndex(s, '\n');
  }

  /**
    Without carriage returns, splitting into lines loses nothing but the
    choice of whether the text ended in a line feed.
  */
  lemma {:induction false} LinesRoundTrip(s: string)
    requires '\r' !in s
    ensures Concat(Terminated(Lines(s))) == WithFinalNewline(s)
    decreases |s|
  {
    if s == [] {
      assert Terminated([]) == [];
    } else if '\n' !in s {
      assert Terminated([s]) == [s + "\n"];
      assert Concat([s + "\n"]) == Concat([]) + (s + "\n");
    } else {
      var i := LinesStep(s);
      var head, rest := s[..i], s[i + 1..];
      SplitAtLineFeed(s, i);
      var ls := Lines(rest);
      TerminatedCons(head, ls);
      LinesRoundTrip(rest);
      FinalNewlineAfterLine(head, rest);
    }
  }

  /** A line ended by a carriage return and a line feed loses both. */
  lemma LinesCrLf(a: string, b: string)
    requires '\n' !in a
    ensures Lines(a + "\r\n" + b) == [a] + Lines(b)
  {
    var s := a + "\r\n" + b;
    assert s[|a| + 1] == '\n';
    assert s[|a|] == '\r';
    assert forall j :: 0 <= j < |a| ==> s[j] == a[j];
    var i := LinesStep(s);
    assert i == |a| + 1;
    assert s[..i] == a + "\r";
    assert s[i + 1..] == b;
  }

  /** A carriage return that ends the text with no line feed after it stays in the last line. */
  lemma LinesKeepFinalCr(a: string)
    requires '\n' !in a
    ensures Lines(a + "\r") == [a + "\r"]
  {
    assert forall j :: 0 <= j < |a| ==> (a + "\r")[j] == a[j];
  }

  /** Cutting out a line feed leaves two pieces free of carriage returns. */
  lemma SplitAtLineFeed(s: string, i: nat)
    requires '\r' !in s && i < |s| && s[i] == '\n'
    ensures s == s[..i] + "\n" + s[i + 1..]
    ensures StripCr(s[..i]) == s[..i] && '\r' !in s[i + 1..]
  {
    var head, rest := s[..i], s[i + 1..];
    assert s == head + "\n" + rest;
    assert head != [] ==> head[|head| - 1] == s[i - 1];
    forall k | 0 <= k < |rest|
      ensures rest[k] != '\r'
    {
      assert rest[k] == s[i + 1 + k];
    }
  }

  lemma FinalNewlineAfterLine(head: string, rest: string)
    ensures head + "\n" + WithFinalNewline(rest) == WithFinalNewline(head + "\n" + rest)
  {
    var s := head + "\n" + rest;
    if rest == [] {
      assert s == head + "\n";
    } else {
      assert rest[|rest| - 1] == s[|s| - 1];
      if s[|s| - 1] != '\n' {
        assert head + "\n" + (rest + "\n") == s + "\n";
      }
    }
  }

  /**
    Lines that hold no line feed and do not end in a carriage return, each
    terminated and concatenated, split back into the same lines.
  */
  lemma {:induction false} LinesOfTerminated(ls: seq<string>)
    requires forall k :: 0 <= k < |ls| ==> '\n' !in ls[k] && StripCr(ls[k]) == ls[k]
    ensures Lines(Concat(Terminated(ls))) == ls
    decreases |ls|
  {
    if ls == [] {
      assert Terminated(ls) == [];
    } else {
      var x := ls[0];
      var rest := ls[1..];
      TerminatedCons(x, rest);
      ConcatCons(x + "\n", Terminated(rest));
      var s := x + "\n" + Concat(Terminated(rest));
      assert s[|x|] == '\n';
      assert forall j :: 0 <= j < |x| ==> s[j] == x[j];
      assert '\n' in s;
      var i := FirstIndex(s, '\n');
      assert forall j :: 0 <= j < |x| ==> s[j] != '\n';
      assert i == |x|;
      assert s[..i] == x;
      assert s[i + 1..] == Concat(Terminated(rest));
      LinesOfTerminated(rest);
      assert ls == [x] + rest;
    }
  }
}

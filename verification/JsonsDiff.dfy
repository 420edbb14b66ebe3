/** Compares two files line by line while both are being read: util/jsonsDiff.js. */
module JsonsDiff {

  const PRINT_LIMIT := 10

  datatype Option<T> = None | Some(value: T)

  /** A printed line: the index and the value from the first or the second file. */
  datatype Output<J> = Minus(index: nat, value: J) | Plus(index: nat, value: J)

  /** isFuzzyEqual on parsed values, and which values count as true. */
  datatype Values<!J> = Values(equal: (J, J) -> bool, truthy: J -> bool)
  {
    /** A line that is missing is undefined, which is equal to no value of JSON. */
    predicate Same(a: Option<J>, b: Option<J>) {
      a.Some? && b.Some? && equal(a.value, b.value)
    }

    /** What is printed for a difference: nothing for a missing line, nor for a value that counts as false. */
    function Shown(index: nat, a: Option<J>, b: Option<J>): seq<Output<J>> {
      (if a.Some? && truthy(a.value) then [Minus(index, a.value)] else []) +
      (if b.Some? && truthy(b.value) then [Plus(index, b.value)] else [])
    }
  }

  function LineAt<J>(file: seq<J>, i: nat): Option<J> { if i < |file| then Some(file[i]) else None }

  function Min(a: nat, b: nat): nat { if a < b then a else b }
  function Max(a: nat, b: nat): nat { if a < b then b else a }

  /** How many of the first n lines differ. */
  function Differences<J>(v: Values<J>, a: seq<J>, b: seq<J>, n: nat): nat {
    if n == 0 then 0
    else Differences(v, a, b, n - 1) + if v.Same(LineAt(a, n - 1), LineAt(b, n - 1)) then 0 else 1
  }

  /** What is printed for the first n lines: the first ten differences. */
  function Printed<J>(v: Values<J>, a: seq<J>, b: seq<J>, n: nat): seq<Output<J>> {
    if n == 0 then []
    else
      Printed(v, a, b, n - 1) +
      if !v.Same(LineAt(a, n - 1), LineAt(b, n - 1)) && Differences(v, a, b, n - 1) < PRINT_LIMIT
      then v.Shown(n - 1, LineAt(a, n - 1), LineAt(b, n - 1)) else []
  }

  /** Only lines that both files have can agree: the rest of the longer file counts in full. */
  lemma {:induction false} TailDiffers<J>(v: Values<J>, a: seq<J>, b: seq<J>, n: nat)
    requires Min(|a|, |b|) <= n
    ensures Differences(v, a, b, n) == Differences(v, a, b, Min(|a|, |b|)) + (n - Min(|a|, |b|))
  {
    if n > Min(|a|, |b|) { TailDiffers(v, a, b, n - 1); }
  }

  /** Later lines make no difference to what has been compared. */
  lemma {:induction false} PrefixDecides<J>(v: Values<J>, a: seq<J>, b: seq<J>, a2: seq<J>, b2: seq<J>, n: nat)
    requires a <= a2 && b <= b2 && n <= Min(|a|, |b|)
    ensures Differences(v, a, b, n) == Differences(v, a2, b2, n)
    ensures Printed(v, a, b, n) == Printed(v, a2, b2, n)
  {
    if n > 0 { PrefixDecides(v, a, b, a2, b2, n - 1); }
  }

  /** o shows a line that differs, from the file it says. */
  ghost predicate Reports<J>(v: Values<J>, a: seq<J>, b: seq<J>, o: Output<J>) {
    && !v.Same(LineAt(a, o.index), LineAt(b, o.index))
    && (if o.Minus? then LineAt(a, o.index) else LineAt(b, o.index)) == Some(o.value)
  }

  ghost predicate AllReport<J>(v: Values<J>, a: seq<J>, b: seq<J>, outputs: seq<Output<J>>, n: nat) {
    forall o :: o in outputs ==> o.index < n && Reports(v, a, b, o)
  }

  /** What comparing line n adds. */
  lemma PrintedNext<J>(v: Values<J>, a: seq<J>, b: seq<J>, n: nat) returns (more: seq<Output<J>>)
    ensures Printed(v, a, b, n + 1) == Printed(v, a, b, n) + more && |more| <= 2
    ensures more != [] ==> Differences(v, a, b, n + 1) == Differences(v, a, b, n) + 1 <= PRINT_LIMIT
    ensures Differences(v, a, b, n + 1) >= Differences(v, a, b, n)
    ensures AllReport(v, a, b, more, n + 1)
  {
    more := if !v.Same(LineAt(a, n), LineAt(b, n)) && Differences(v, a, b, n) < PRINT_LIMIT
            then v.Shown(n, LineAt(a, n), LineAt(b, n)) else [];
  }

  /** At most ten differences are shown, with at most one output line for each file; all are below n. */
  lemma {:induction false} PrintedReports<J>(v: Values<J>, a: seq<J>, b: seq<J>, n: nat)
    ensures |Printed(v, a, b, n)| <= 2 * Min(Differences(v, a, b, n), PRINT_LIMIT)
    ensures AllReport(v, a, b, Printed(v, a, b, n), n)
  {
    hide Printed, Differences, Reports;
    if n == 0 {
      NothingPrinted(v, a, b);
    } else {
      PrintedReports(v, a, b, n - 1);
      var more := PrintedNext(v, a, b, n - 1);
    }
  }

  lemma StepIs<J>(v: Values<J>, a: seq<J>, b: seq<J>, n: nat)
    ensures Differences(v, a, b, n + 1) == Differences(v, a, b, n) + if v.Same(LineAt(a, n), LineAt(b, n)) then 0 else 1
    ensures Printed(v, a, b, n + 1) == Printed(v, a, b, n) +
              if !v.Same(LineAt(a, n), LineAt(b, n)) && Differences(v, a, b, n) < PRINT_LIMIT
              then v.Shown(n, LineAt(a, n), LineAt(b, n)) else []
  {
  }

  lemma NothingPrinted<J>(v: Values<J>, a: seq<J>, b: seq<J>)
    ensures Differences(v, a, b, 0) == 0 && Printed(v, a, b, 0) == []
  {
  }

  // ---------------------------------------------------------------- the differences as such

  /** No line differs exactly when the files are equal line by line. */
  lemma NoDifferences<J>(v: Values<J>, a: seq<J>, b: seq<J>, at: seq<nat>)
    requires AreDifferences(v, a, b, Max(|a|, |b|), at)
    ensures |at| == 0 <==> |a| == |b| && forall i :: 0 <= i < |a| ==> (v.equal)(a[i], b[i])
  {
    if |a| != |b| { assert DiffersAt(v, a, b, Min(|a|, |b|)) && Min(|a|, |b|) in at; }
    if |at| == 0 {
      forall i | 0 <= i < |a|
        ensures (v.equal)(a[i], b[i])
      {
        assert i !in at && !DiffersAt(v, a, b, i);
      }
    } else {
      assert at[0] in at && DiffersAt(v, a, b, at[0]);
    }
  }

  /** Line i is not in both files, or is not equal in them. */
  ghost predicate DiffersAt<J>(v: Values<J>, a: seq<J>, b: seq<J>, i: nat) {
    !(i < |a| && i < |b| && (v.equal)(a[i], b[i]))
  }

  /** The lines below n that differ, one after the other. */
  ghost predicate AreDifferences<J>(v: Values<J>, a: seq<J>, b: seq<J>, n: nat, at: seq<nat>) {
    && (forall j, k :: 0 <= j < k < |at| ==> at[j] < at[k])
    && (forall i: nat :: i in at <==> i < n && DiffersAt(v, a, b, i))
  }

  /** The first k of them, each with what the files have there; values that count as false are not shown. */
  ghost function ShownLines<J>(v: Values<J>, a: seq<J>, b: seq<J>, at: seq<nat>, k: nat): seq<Output<J>>
    requires k <= |at|
  {
    if k == 0 then []
    else
      var i := at[k - 1];
      ShownLines(v, a, b, at, k - 1)
      + ((if i < |a| && (v.truthy)(a[i]) then [Minus(i, a[i])] else [])
         + (if i < |b| && (v.truthy)(b[i]) then [Plus(i, b[i])] else []))
  }

  lemma {:induction false} ShownPrefix<J>(v: Values<J>, a: seq<J>, b: seq<J>, at: seq<nat>, more: seq<nat>, k: nat)
    requires k <= |at|
    ensures ShownLines(v, a, b, at + more, k) == ShownLines(v, a, b, at, k)
  {
    if k > 0 { ShownPrefix(v, a, b, at, more, k - 1); }
  }

  lemma NextDifference<J>(v: Values<J>, a: seq<J>, b: seq<J>, n: nat, at: seq<nat>)
    requires AreDifferences(v, a, b, n, at)
    ensures AreDifferences(v, a, b, n + 1, at + if DiffersAt(v, a, b, n) then [n] else [])
  {
    forall k | 0 <= k < |at|
      ensures at[k] < n
    {
      assert at[k] in at;
    }
  }

  lemma NextShown<J>(v: Values<J>, a: seq<J>, b: seq<J>, at: seq<nat>, n: nat)
    ensures ShownLines(v, a, b, at + [n], Min(|at| + 1, 10)) ==
            ShownLines(v, a, b, at, Min(|at|, 10)) +
              if |at| < 10 then v.Shown(n, LineAt(a, n), LineAt(b, n)) else []
  {
    ShownPrefix(v, a, b, at, [n], Min(|at|, 10));
    if |at| < 10 {
      assert (at + [n])[|at|] == n;
    }
  }

  lemma NoneShown<J>(v: Values<J>, a: seq<J>, b: seq<J>)
    ensures ShownLines(v, a, b, [], 0) == []
  {
  }

  /** The counted differences are the lines that differ, and the first ten are printed. */
  lemma {:induction false} DifferencesAre<J>(v: Values<J>, a: seq<J>, b: seq<J>, n: nat) returns (at: seq<nat>)
    ensures AreDifferences(v, a, b, n, at) && |at| == Differences(v, a, b, n)
    ensures Printed(v, a, b, n) == ShownLines(v, a, b, at, Min(|at|, 10))
  {
    hide ShownLines, Printed, Differences;
    NothingPrinted(v, a, b);
    NoneShown(v, a, b);
    at := [];
    if n > 0 {
      at := DifferencesAre(v, a, b, n - 1);
      StepIs(v, a, b, n - 1);
      NextDifference(v, a, b, n - 1, at);
      NextShown(v, a, b, at, n - 1);
      hide AreDifferences;
      if DiffersAt(v, a, b, n - 1) { at := at + [n - 1]; } else { assert at + [] == at; }
    }
  }

  /** 0, 1, .. n - 1 */
  function UpTo(n: nat): (s: seq<nat>)
    ensures |s| == n && forall i :: 0 <= i < n ==> s[i] == i
  {
    seq(n, i => i)
  }

  class Comparer<J> {
    const v: Values<J>
    var lines0: seq<J>
    var lines1: seq<J>
    var diffCount: nat
    var exitCode: nat
    var printed: seq<Output<J>>
    ghost var compared: seq<nat>

    constructor (v: Values<J>)
      ensures this.v == v && lines0 == [] && lines1 == [] && Valid()
    {
      this.v := v;
      lines0, lines1, diffCount, exitCode, printed := [], [], 0, 0, [];
      compared := [];
    }

    /** The state after the first n lines have been compared, in order and once each. */
    ghost predicate Compared(n: nat)
      reads this
    {
      && compared == UpTo(n)
      && diffCount == Differences(v, lines0, lines1, n)
      && printed == Printed(v, lines0, lines1, n)
      && exitCode == if diffCount > 0 then 1 else 0
    }

    ghost predicate Valid()
      reads this
    {
      Compared(Min(|lines0|, |lines1|))
    }

    /** cmpLines */
    method CmpLines(index: nat, a: Option<J>, b: Option<J>)
      requires Compared(index) && a == LineAt(lines0, index) && b == LineAt(lines1, index)
      modifies this`diffCount, this`exitCode, this`printed, this`compared
      ensures Compared(index + 1)
      ensures var same := a.Some? && b.Some? && (v.equal)(a.value, b.value);
              && diffCount == old(diffCount) + (if same then 0 else 1)
              && printed == old(printed) +
                   if same || old(diffCount) >= 10 then []
                   else (if a.Some? && (v.truthy)(a.value) then [Minus(index, a.value)] else []) +
                        (if b.Some? && (v.truthy)(b.value) then [Plus(index, b.value)] else [])
    {
      hide Differences, Printed;
      StepIs(v, lines0, lines1, index);
      compared := compared + [index];
      if !v.Same(a, b) {
        if diffCount < PRINT_LIMIT {
          if a.Some? && v.truthy(a.value) { printed := printed + [Minus(index, a.value)]; }
          if b.Some? && v.truthy(b.value) { printed := printed + [Plus(index, b.value)]; }
          assert printed == old(printed) + v.Shown(index, a, b);
        }
        exitCode := 1;
        diffCount := diffCount + 1;
      }
      assert compared == UpTo(index + 1);
    }

    /** A line of one of the files has been read: it is compared if the other file is already that far. */
    method OnLine(second: bool, data: J)
      requires Valid()
      modifies this
      ensures Valid()
      ensures lines0 == if second then old(lines0) else old(lines0) + [data]
      ensures lines1 == if second then old(lines1) + [data] else old(lines1)
    {
      var lineIndex := if second then |lines1| else |lines0|;
      ghost var n := Min(|lines0|, |lines1|);
      ghost var before0, before1 := lines0, lines1;
      if second {
        lines1 := lines1 + [data];
      } else {
        lines0 := lines0 + [data];
      }
      PrefixDecides(v, before0, before1, lines0, lines1, n);
      if |if second then lines0 else lines1| > lineIndex {
        CmpLines(lineIndex, Some(lines0[lineIndex]), Some(lines1[lineIndex]));
      }
    }

    /** Both files are closed: the rest of the longer one is compared with nothing. */
    method Finish() returns (truncated: bool)
      requires Valid()
      modifies this`diffCount, this`exitCode, this`printed, this`compared
      ensures Compared(Max(|lines0|, |lines1|))
      ensures diffCount == Differences(v, lines0, lines1, Min(|lines0|, |lines1|)) +
                           (Max(|lines0|, |lines1|) - Min(|lines0|, |lines1|))
      ensures truncated <==> diffCount > PRINT_LIMIT
    {
      for i := Min(|lines0|, |lines1|) to Max(|lines0|, |lines1|)
        invariant Compared(i)
      {
        CmpLines(i, LineAt(lines0, i), LineAt(lines1, i));
      }
      TailDiffers(v, lines0, lines1, Max(|lines0|, |lines1|));
      truncated := diffCount > PRINT_LIMIT;
    }
  }

  /** Lines arrive from the two files in any order. */
  datatype LineEvent<J> = LineEvent(second: bool, data: J)

  function LinesOf<J>(events: seq<LineEvent<J>>, second: bool): seq<J> {
    if events == [] then []
    else
      var k := |events| - 1;
      LinesOf(events[..k], second) + if events[k].second == second then [events[k].data] else []
  }

  lemma LinesOfNone<J>()
    ensures LinesOf<J>([], false) == LinesOf<J>([], true) == []
  {
  }

  lemma LinesOfNext<J>(events: seq<LineEvent<J>>, i: nat)
    requires i < |events|
    ensures forall second :: LinesOf(events[..i + 1], second) ==
              LinesOf(events[..i], second) + if events[i].second == second then [events[i].data] else []
  {
    assert events[..i + 1][..i] == events[..i];
  }

  /** The outcome depends on the two files only, not on how their lines were interleaved: every line that is not in
      both files, or not equal, counts, and the first ten are printed from both. */
  method Compare<J>(v: Values<J>, events: seq<LineEvent<J>>)
    returns (diffCount: nat, exitCode: nat, printed: seq<Output<J>>, truncated: bool, ghost at: seq<nat>)
    ensures var a, b := LinesOf(events, false), LinesOf(events, true);
            && AreDifferences(v, a, b, if |a| < |b| then |b| else |a|, at) && diffCount == |at|
            && (diffCount == 0 <==> |a| == |b| && forall i :: 0 <= i < |a| ==> (v.equal)(a[i], b[i]))
            && printed == ShownLines(v, a, b, at, if diffCount < 10 then diffCount else 10)
            && exitCode == (if diffCount > 0 then 1 else 0) && (truncated <==> diffCount > 10)
    ensures var a, b := LinesOf(events, false), LinesOf(events, true);
            && diffCount == Differences(v, a, b, Max(|a|, |b|))
            && diffCount == Differences(v, a, b, Min(|a|, |b|)) + (Max(|a|, |b|) - Min(|a|, |b|))
            && printed == Printed(v, a, b, Max(|a|, |b|))
            && exitCode == (if diffCount > 0 then 1 else 0) && (truncated <==> diffCount > PRINT_LIMIT)
  {
    hide Differences, Printed, LinesOf;
    var comparer := new Comparer(v);
    LinesOfNone<J>();
    for i := 0 to |events|
      invariant comparer.Valid() && comparer.v == v && fresh(comparer)
      invariant comparer.lines0 == LinesOf(events[..i], false) && comparer.lines1 == LinesOf(events[..i], true)
    {
      LinesOfNext(events, i);
      comparer.OnLine(events[i].second, events[i].data);
    }
    assert events[..|events|] == events;
    truncated := comparer.Finish();
    diffCount, exitCode, printed := comparer.diffCount, comparer.exitCode, comparer.printed;
    ghost var a, b := LinesOf(events, false), LinesOf(events, true);
    at := DifferencesAre(v, a, b, Max(|a|, |b|));
    NoDifferences(v, a, b, at);
  }
}

/** The loops `parse` and `bugParse` of the middleware's recoverer share:
    picking the frame lines out of a `debug.Stack()` dump, reversing them in
    place and decorating them one by one. */
module StackFrames {
  import opened Outcomes
  import opened Text
  import opened StackDecoration

  /** What a slice `lines[0:len(lines)-2]` of a one-element slice panics with. */
  const ShortSlicePanic: string := "slice bounds out of range [:-1]"

  /** The greatest index `k` with `1 <= k < hi` whose line starts with
      `marker`, or 0 when there is none (line 0 is never examined). */
  function MarkerBelow(stack: seq<string>, marker: string, hi: nat): (k: nat)
    requires hi <= |stack|
    ensures k == 0 || (1 <= k < hi && HasPrefix(stack[k], marker))
    ensures forall j :: k < j < hi ==> !HasPrefix(stack[j], marker)
    decreases hi
  {
    if hi <= 1 then 0
    else if HasPrefix(stack[hi - 1], marker) then hi - 1
    else MarkerBelow(stack, marker, hi - 1)
  }

  /** The last marker line of the dump (the innermost of nested panics), or 0. */
  function LastMarker(stack: seq<string>, marker: string): nat
  {
    MarkerBelow(stack, marker, |stack|)
  }

  /** Some line after the first is a marker line. */
  predicate HasMarkerLine(stack: seq<string>, marker: string)
  {
    exists j :: 1 <= j < |stack| && HasPrefix(stack[j], marker)
  }

  /** There is a last marker exactly when some line after the first is a
      marker line. */
  lemma LastMarkerExists(stack: seq<string>, marker: string)
    ensures LastMarker(stack, marker) != 0 <==> HasMarkerLine(stack, marker)
  {
    var k := LastMarker(stack, marker);
    if k != 0 {
      assert 1 <= k < |stack| && HasPrefix(stack[k], marker);
    }
  }

  /** The frame lines the scan keeps, in the dump's order: without a marker
      every line but the first; with the last marker at `k`, the lines after
      `k + 1` (the marker line and the line after it are boilerplate). A
      marker on the very last line leaves one line to drop two from, and the
      slice panics. */
  function FrameLines(stack: seq<string>, marker: string): Run<seq<string>>
  {
    var k := LastMarker(stack, marker);
    if k == 0 then Returns(if |stack| <= 1 then [] else stack[1..])
    else if k + 2 > |stack| then Panics(ShortSlicePanic)
    else Returns(stack[k + 2..])
  }

  /** The kept lines are the tail of the dump, and none of them is a marker
      line: only the innermost panic's frames are shown. */
  lemma FrameLinesAfterLastMarker(stack: seq<string>, marker: string)
    ensures var f := FrameLines(stack, marker);
              f.Returns? ==> |f.value| <= |stack| && f.value == stack[|stack| - |f.value|..]
    ensures var f := FrameLines(stack, marker);
              f.Returns? && |stack| >= 1 ==> |f.value| < |stack|
    ensures var f := FrameLines(stack, marker);
              f.Returns? ==> forall j :: 0 <= j < |f.value| ==> !HasPrefix(f.value[j], marker)
    ensures FrameLines(stack, marker).Panics? <==> LastMarker(stack, marker) == |stack| - 1 > 0
  {
    FrameLinesAreTail(stack, marker);
    FrameLinesHoldNoMarker(stack, marker);
  }

  /** The kept lines are a proper tail of the dump. */
  lemma FrameLinesAreTail(stack: seq<string>, marker: string)
    ensures var f := FrameLines(stack, marker);
              f.Returns? ==> |f.value| <= |stack| && f.value == stack[|stack| - |f.value|..]
                             && (|stack| >= 1 ==> |f.value| < |stack|)
  {
    var k := LastMarker(stack, marker);
    if k == 0 {
      if |stack| > 1 {
        assert FrameLines(stack, marker).value == stack[1..];
      }
    } else if k + 2 <= |stack| {
      assert FrameLines(stack, marker).value == stack[k + 2..];
    }
  }

  /** None of the kept lines starts with the marker. */
  lemma FrameLinesHoldNoMarker(stack: seq<string>, marker: string)
    ensures var f := FrameLines(stack, marker);
              f.Returns? ==> forall j :: 0 <= j < |f.value| ==> !HasPrefix(f.value[j], marker)
  {
    var k := LastMarker(stack, marker);
    var f := FrameLines(stack, marker);
    if f.Returns? {
      assert k == 0 || (1 <= k < |stack| && k + 2 <= |stack|);
      forall j | 0 <= j < |f.value|
        ensures !HasPrefix(f.value[j], marker)
      {
        if k == 0 {
          assert f.value == stack[1..];
          assert f.value[j] == stack[j + 1];
        } else {
          assert f.value == stack[k + 2..];
          assert f.value[j] == stack[k + 2 + j];
        }
      }
    }
  }

  /** Joined back with line breaks, the kept lines are the tail of the dump
      they were split from, and they split back into themselves. */
  lemma FrameLinesJoinTail(dump: string, marker: string)
    ensures var f := FrameLines(Split(dump, '\n'), marker);
              f.Returns? && |f.value| >= 1 ==>
                HasSuffix(dump, Join(f.value, "\n")) && Split(Join(f.value, "\n"), '\n') == f.value
  {
    var stack := Split(dump, '\n');
    var f := FrameLines(stack, marker);
    if f.Returns? && |f.value| >= 1 {
      var lines := f.value;
      FrameLinesAfterLastMarker(stack, marker);
      var m := |stack| - |lines|;
      assert lines == stack[m..];
      JoinTailIsSuffix(stack, "\n", m);
      forall j | 0 <= j < |lines|
        ensures '\n' !in lines[j]
      {
        assert lines[j] == stack[m + j];
      }
      SplitJoin(lines, '\n');
    }
  }

  /** The marker scan never looks at the first line of the dump. */
  lemma {:induction false} MarkerBelowIgnoresFirst(stack: seq<string>, other: seq<string>, marker: string, hi: nat)
    requires 1 <= |stack| == |other| && hi <= |stack|
    requires stack[1..] == other[1..]
    ensures MarkerBelow(stack, marker, hi) == MarkerBelow(other, marker, hi)
    decreases hi
  {
    if hi > 1 {
      assert stack[hi - 1] == stack[1..][hi - 2] == other[hi - 1];
      MarkerBelowIgnoresFirst(stack, other, marker, hi - 1);
    }
  }

  /** The first line of the dump (the goroutine header) has no influence on
      the frames. */
  lemma FrameLinesIgnoreFirst(stack: seq<string>, first: string, marker: string)
    requires |stack| >= 1
    ensures FrameLines([first] + stack[1..], marker) == FrameLines(stack, marker)
  {
    var other := [first] + stack[1..];
    assert other[1..] == stack[1..];
    MarkerBelowIgnoresFirst(stack, other, marker, |stack|);
    var k := LastMarker(stack, marker);
    if 0 < k && k + 2 <= |stack| {
      assert other[k + 2..] == stack[1..][k + 1..] == stack[k + 2..];
    }
  }

  /** A marker line with none after it is the last marker. */
  lemma LastMarkerAt(stack: seq<string>, marker: string, i: int)
    requires 1 <= i < |stack| && HasPrefix(stack[i], marker)
    requires forall j :: i < j < |stack| ==> !HasPrefix(stack[j], marker)
    ensures LastMarker(stack, marker) == i
  {
  }

  /** Without marker lines past the first line there is no last marker. */
  lemma NoLastMarker(stack: seq<string>, marker: string)
    requires forall j :: 0 < j < |stack| ==> !HasPrefix(stack[j], marker)
    ensures LastMarker(stack, marker) == 0
  {
  }

  /** The backward scan: lines are collected from the last one down to line
      1, and at the first marker line met (the last one of the dump) the two
      lines collected last are dropped and the scan stops. The result is the
      frame lines in reverse order; `found` tells whether a marker was met. */
  method CollectFrames(stack: seq<string>, marker: string) returns (r: Run<seq<string>>, found: bool)
    ensures found <==> LastMarker(stack, marker) != 0
    ensures r.Panics? <==> FrameLines(stack, marker).Panics?
    ensures r.Panics? ==> r == FrameLines(stack, marker)
    ensures r.Returns? ==> r.value == Reversed(FrameLines(stack, marker).value)
  {
    var lines: seq<string> := [];
    var i := |stack| - 1;
    found := false;
    while i > 0
      invariant -1 <= i < |stack|
      invariant |stack| >= 1 ==> i >= 0
      invariant lines == Reversed(stack[i + 1..])
      invariant forall j :: i < j < |stack| ==> !HasPrefix(stack[j], marker)
    {
      assert stack[i..] == [stack[i]] + stack[i + 1..];
      ReversedCons(stack[i], stack[i + 1..]);
      lines := lines + [stack[i]];
      if HasPrefix(stack[i], marker) {
        LastMarkerAt(stack, marker, i);
        found := true;
        if |lines| < 2 {
          r := Panics(ShortSlicePanic);
          return;
        }
        ReversedDropFront(stack[i..], 2);
        assert stack[i..][2..] == stack[i + 2..];
        lines := lines[..|lines| - 2];
        r := Returns(lines);
        return;
      }
      i := i - 1;
    }
    NoLastMarker(stack, marker);
    if |stack| > 1 {
      assert i == 0;
    } else {
      assert lines == [];
    }
    r := Returns(lines);
  }

  /** The reverse loop: from the middle outwards, each line in the front half
      swaps places with its mirror image. */
  method ReverseInPlace(a: array<string>)
    modifies a
    ensures a[..] == Reversed(old(a[..]))
  {
    ghost var orig := a[..];
    var n := a.Length;
    var i := n / 2 - 1;
    while i >= 0
      invariant -1 <= i <= n / 2 - 1
      invariant forall k :: 0 <= k < n ==>
                  a[k] == (if i < k < n - 1 - i then orig[n - 1 - k] else orig[k])
    {
      var opp := n - 1 - i;
      a[i], a[opp] := a[opp], a[i];
      i := i - 1;
    }
  }

  /** The decorate loop, with `decorate` standing for decorateLine: line `i`
      is replaced by its decoration with number `i`; the first error or panic
      ends the loop. On success the array holds every decorated line. */
  method DecorateInPlace(a: array<string>, decorate: (string, int) -> Outcome) returns (r: Run<Result<seq<string>, string>>)
    modifies a
    ensures r == Sequence(LineOutcomes(old(a[..]), decorate))
    ensures r.Returns? && r.value.Ok? ==> a[..] == r.value.value
  {
    ghost var outs := LineOutcomes(a[..], decorate);
    ghost var orig := a[..];
    var i := 0;
    while i < a.Length
      invariant 0 <= i <= a.Length
      invariant forall k :: i <= k < a.Length ==> a[k] == orig[k]
      invariant Sequence(outs[..i]) == Returns(Ok(a[..i]))
    {
      var d := decorate(a[i], i);
      assert d == outs[i];
      if !Succeeded(d) {
        SequenceFailsAt(outs, i, a[..i]);
        if d.Returns? {
          a[i] := "";
        }
        r := Abort(d);
        return;
      }
      SequenceStep(outs, i, a[..i]);
      a[i] := d.value.value;
      assert a[..i + 1] == a[..i] + [d.value.value];
      i := i + 1;
    }
    assert outs[..a.Length] == outs;
    assert a[..a.Length] == a[..];
    r := Returns(Ok(a[..]));
  }
}

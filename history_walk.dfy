/**
 * The shape of PrintBacktrace's walk over a copy of the native/public call
 * history: entries are visited from the top (the most recent call) down,
 * each entry is walked from the frame pointer recorded by the entry above
 * it, and the "#n" numbering carries on from one entry to the next.
 *
 * What one entry prints is a parameter (a Walker) so that the facts about
 * the walk's shape are proved once, independently of the entry's contents.
 */
module HistoryWalk {
  import opened AmxDebugInfo
  import opened AmxHost

  /**
   * What one history entry contributes to a backtrace: its lines, given
   * the frame pointer it is walked from and the number of its first "#n"
   * line, how many "#n" lines that is, and the frame pointer it hands on to
   * the entry below it.
   */
  datatype Walker = Walker(
    lines: (Call, ucell, int) --> seq<Event>,
    width: (Call, ucell) --> nat,
    next: Call -> ucell)

  /** The walker can be applied to every entry of the stack. */
  ghost predicate Walkable(stack: seq<Call>, w: Walker) {
    (forall k, f: ucell, d: int :: 0 <= k < |stack| ==> w.lines.requires(stack[k], f, d)) &&
    (forall k, f: ucell :: 0 <= k < |stack| ==> w.width.requires(stack[k], f))
  }

  /**
   * The lines printed for entries lo..hi-1: entry hi-1 first, walked from
   * `frm` and numbered from `depth`; every entry below is walked from the
   * frame pointer recorded by the entry above it.
   */
  function Lines(stack: seq<Call>, lo: nat, hi: nat, frm: ucell, depth: int, w: Walker): seq<Event>
    requires Walkable(stack, w) && lo <= hi <= |stack|
    decreases hi - lo
  {
    if lo == hi then []
    else
      var call := stack[hi - 1];
      w.lines(call, frm, depth) + Lines(stack, lo, hi - 1, w.next(call), depth + w.width(call, frm), w)
  }

  /** The number of "#n" lines printed for entries lo..hi-1. */
  function Width(stack: seq<Call>, lo: nat, hi: nat, frm: ucell, w: Walker): nat
    requires Walkable(stack, w) && lo <= hi <= |stack|
    decreases hi - lo
  {
    if lo == hi then 0
    else
      var call := stack[hi - 1];
      w.width(call, frm) + Width(stack, lo, hi - 1, w.next(call), w)
  }

  /** The frame pointer the walk of entries lo..hi-1 hands on to the entries below lo. */
  function FrmBelow(stack: seq<Call>, lo: nat, hi: nat, frm: ucell, w: Walker): ucell
    requires lo <= hi <= |stack|
  {
    if lo == hi then frm else w.next(stack[lo])
  }

  lemma AppendAssociative<T>(a: seq<T>, b: seq<T>, c: seq<T>)
    ensures a + (b + c) == (a + b) + c
  {
  }

  /** The top entry of lo..hi-1 is printed first, and the rest is walked from the frame pointer it recorded. */
  lemma Top(stack: seq<Call>, lo: nat, hi: nat, frm: ucell, depth: int, w: Walker)
    requires Walkable(stack, w) && lo < hi <= |stack|
    ensures Lines(stack, lo, hi, frm, depth, w) ==
      w.lines(stack[hi - 1], frm, depth) +
      Lines(stack, lo, hi - 1, w.next(stack[hi - 1]), depth + w.width(stack[hi - 1], frm), w)
  {
  }

  /** Walking a single entry prints exactly that entry's lines. */
  lemma One(stack: seq<Call>, i: nat, frm: ucell, depth: int, w: Walker)
    requires Walkable(stack, w) && 0 < i <= |stack|
    ensures Lines(stack, i - 1, i, frm, depth, w) == w.lines(stack[i - 1], frm, depth)
    ensures Width(stack, i - 1, i, frm, w) == w.width(stack[i - 1], frm)
  {
    assert Lines(stack, i - 1, i - 1, w.next(stack[i - 1]), depth + w.width(stack[i - 1], frm), w) == [];
    assert w.lines(stack[i - 1], frm, depth) + [] == w.lines(stack[i - 1], frm, depth);
  }

  /**
   * Most recent call first: the upper entries mid..hi-1 are printed before
   * the lower entries lo..mid-1, and the lower ones are walked from the
   * frame pointer the lowest upper entry recorded, their numbering
   * continuing where the upper ones stopped.
   */
  lemma {:induction false} Split(stack: seq<Call>, lo: nat, mid: nat, hi: nat, frm: ucell, depth: int, w: Walker)
    requires Walkable(stack, w) && lo <= mid <= hi <= |stack|
    ensures Lines(stack, lo, hi, frm, depth, w) ==
      Lines(stack, mid, hi, frm, depth, w) +
      Lines(stack, lo, mid, FrmBelow(stack, mid, hi, frm, w), depth + Width(stack, mid, hi, frm, w), w)
    decreases hi - mid
  {
    if mid < hi {
      var call := stack[hi - 1];
      var frm' := w.next(call);
      var depth' := depth + w.width(call, frm);
      var below := FrmBelow(stack, mid, hi, frm, w);
      Split(stack, lo, mid, hi - 1, frm', depth', w);
      Top(stack, lo, hi, frm, depth, w);
      Top(stack, mid, hi, frm, depth, w);
      assert FrmBelow(stack, mid, hi - 1, frm', w) == below;
      assert depth' + Width(stack, mid, hi - 1, frm', w) == depth + Width(stack, mid, hi, frm, w);
      AppendAssociative(w.lines(call, frm, depth), Lines(stack, mid, hi - 1, frm', depth', w),
        Lines(stack, lo, mid, below, depth + Width(stack, mid, hi, frm, w), w));
    } else {
      assert [] + Lines(stack, lo, hi, frm, depth, w) == Lines(stack, lo, hi, frm, depth, w);
    }
  }

  /** The widths of the upper and the lower entries add up. */
  lemma {:induction false} SplitWidth(stack: seq<Call>, lo: nat, mid: nat, hi: nat, frm: ucell, w: Walker)
    requires Walkable(stack, w) && lo <= mid <= hi <= |stack|
    ensures Width(stack, lo, hi, frm, w) ==
      Width(stack, mid, hi, frm, w) + Width(stack, lo, mid, FrmBelow(stack, mid, hi, frm, w), w)
    decreases hi - mid
  {
    if mid < hi {
      var frm' := w.next(stack[hi - 1]);
      SplitWidth(stack, lo, mid, hi - 1, frm', w);
      assert FrmBelow(stack, mid, hi - 1, frm', w) == FrmBelow(stack, mid, hi, frm, w);
    }
  }

  /**
   * One step of the walk from the top down: after entries k..hi-1, entry
   * k-1 is walked from the frame pointer they hand on and numbered where
   * they stopped.
   */
  lemma Step(stack: seq<Call>, k: nat, hi: nat, frm: ucell, depth: int, w: Walker)
    requires Walkable(stack, w) && 0 < k <= hi <= |stack|
    ensures Lines(stack, k - 1, hi, frm, depth, w) ==
      Lines(stack, k, hi, frm, depth, w) +
      w.lines(stack[k - 1], FrmBelow(stack, k, hi, frm, w), depth + Width(stack, k, hi, frm, w))
    ensures Width(stack, k - 1, hi, frm, w) ==
      Width(stack, k, hi, frm, w) + w.width(stack[k - 1], FrmBelow(stack, k, hi, frm, w))
    ensures FrmBelow(stack, k - 1, hi, frm, w) == w.next(stack[k - 1])
  {
    Split(stack, k - 1, k, hi, frm, depth, w);
    SplitWidth(stack, k - 1, k, hi, frm, w);
    One(stack, k, FrmBelow(stack, k, hi, frm, w), depth + Width(stack, k, hi, frm, w), w);
  }

  // ----- Line numbering -----

  /** The numbers of the "#n" lines among `events`, in order. */
  function FrameDepths(events: seq<Event>): seq<int> {
    if |events| == 0 then []
    else (if events[0].IsFrameLine() then [events[0].depth] else []) + FrameDepths(events[1..])
  }

  /** n consecutive numbers starting at d. */
  function Consecutive(d: int, n: nat): (s: seq<int>)
    ensures |s| == n
    decreases n
  {
    if n == 0 then [] else [d] + Consecutive(d + 1, n - 1)
  }

  lemma {:induction false} ConsecutiveAt(d: int, n: nat, k: nat)
    requires k < n
    ensures Consecutive(d, n)[k] == d + k
    decreases n
  {
    if k > 0 {
      ConsecutiveAt(d + 1, n - 1, k - 1);
    }
  }

  lemma {:induction false} FrameDepthsAppend(a: seq<Event>, b: seq<Event>)
    ensures FrameDepths(a + b) == FrameDepths(a) + FrameDepths(b)
  {
    if |a| == 0 {
      assert a + b == b;
    } else {
      assert (a + b)[0] == a[0];
      assert (a + b)[1..] == a[1..] + b;
      FrameDepthsAppend(a[1..], b);
    }
  }

  lemma ConsecutiveAppend(d: int, n: nat, m: nat)
    ensures Consecutive(d, n) + Consecutive(d + n, m) == Consecutive(d, n + m)
  {
    var lhs, rhs := Consecutive(d, n) + Consecutive(d + n, m), Consecutive(d, n + m);
    forall k | 0 <= k < |lhs| ensures lhs[k] == rhs[k] {
      ConsecutiveAt(d, n + m, k);
      if k < n {
        ConsecutiveAt(d, n, k);
      } else {
        ConsecutiveAt(d + n, m, k - n);
      }
    }
  }

  /** An entry numbers its own "#n" lines consecutively from the number it is given, one per unit of width. */
  ghost predicate EntryNumbered(w: Walker, call: Call, f: ucell, d: int)
    requires w.lines.requires(call, f, d) && w.width.requires(call, f)
  {
    FrameDepths(w.lines(call, f, d)) == Consecutive(d, w.width(call, f))
  }

  ghost predicate NumbersEntries(stack: seq<Call>, w: Walker)
    requires Walkable(stack, w)
  {
    forall k, f: ucell, d: int :: 0 <= k < |stack| ==> EntryNumbered(w, stack[k], f, d)
  }

  /** Then the whole walk numbers its "#n" lines consecutively from `depth`, as many as its width. */
  lemma {:induction false} Numbered(stack: seq<Call>, lo: nat, hi: nat, frm: ucell, depth: int, w: Walker)
    requires Walkable(stack, w) && lo <= hi <= |stack| && NumbersEntries(stack, w)
    ensures FrameDepths(Lines(stack, lo, hi, frm, depth, w)) == Consecutive(depth, Width(stack, lo, hi, frm, w))
    decreases hi - lo
  {
    if lo < hi {
      var call := stack[hi - 1];
      var n := w.width(call, frm);
      var head := w.lines(call, frm, depth);
      var tail := Lines(stack, lo, hi - 1, w.next(call), depth + n, w);
      Numbered(stack, lo, hi - 1, w.next(call), depth + n, w);
      Top(stack, lo, hi, frm, depth, w);
      assert Width(stack, lo, hi, frm, w) == n + Width(stack, lo, hi - 1, w.next(call), w);
      assert EntryNumbered(w, call, frm, depth);
      NumberedAppend(head, tail, depth, n, Width(stack, lo, hi - 1, w.next(call), w));
    }
  }

  /** Two consecutively numbered runs of lines, the second continuing the first, make one. */
  lemma NumberedAppend(head: seq<Event>, tail: seq<Event>, depth: int, n: nat, m: nat)
    requires FrameDepths(head) == Consecutive(depth, n)
    requires FrameDepths(tail) == Consecutive(depth + n, m)
    ensures FrameDepths(head + tail) == Consecutive(depth, n + m)
  {
    FrameDepthsAppend(head, tail);
    ConsecutiveAppend(depth, n, m);
  }

  // ----- Lines that never appear -----

  /** An entry's lines avoid source-level ("name at file:line") frames. */
  ghost predicate EntryWithoutSource(w: Walker, call: Call, f: ucell, d: int)
    requires w.lines.requires(call, f, d)
  {
    forall e :: e in w.lines(call, f, d) ==> !e.SourceFrame?
  }

  ghost predicate EntriesWithoutSource(stack: seq<Call>, w: Walker)
    requires Walkable(stack, w)
  {
    forall k, f: ucell, d: int :: 0 <= k < |stack| ==> EntryWithoutSource(w, stack[k], f, d)
  }

  lemma {:induction false} WithoutSource(stack: seq<Call>, lo: nat, hi: nat, frm: ucell, depth: int, w: Walker)
    requires Walkable(stack, w) && lo <= hi <= |stack| && EntriesWithoutSource(stack, w)
    ensures forall e :: e in Lines(stack, lo, hi, frm, depth, w) ==> !e.SourceFrame?
    decreases hi - lo
  {
    if lo < hi {
      var call := stack[hi - 1];
      WithoutSource(stack, lo, hi - 1, w.next(call), depth + w.width(call, frm), w);
      Top(stack, lo, hi, frm, depth, w);
      assert EntryWithoutSource(w, call, frm, depth);
    }
  }
}

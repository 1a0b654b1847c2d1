/**
 Integer tags kept on the call stack: addStackTag calls markS and then one marker
 function per base-16 digit, and readStackTags reads them back off a stack trace.
 A trace lists frames from the innermost outwards.
 */
module StackTags {
  import opened Sequences

  datatype Frame = MarkS | Mark(v: nat) | Other

  const UINT: nat := 0x1_0000_0000_0000_0000

  /** The marker frames of _m, innermost first; the least digit is called first. */
  function Digits(tag: nat): seq<Frame> {
    if tag == 0 then [] else Digits(tag / 16) + [Mark(tag % 16)]
  }

  /** The marker frames of addStackTag. */
  function TagFrames(tag: nat): seq<Frame> { Digits(tag) + [MarkS] }

  function Pow16(n: nat): nat { if n == 0 then 1 else 16 * Pow16(n - 1) }

  /** The markers are the digits of the tag in base 16, the most significant innermost, with
      no zeros in front. */
  lemma {:induction false} DigitsAre(tag: nat)
    ensures var n := |Digits(tag)|;
            && tag < Pow16(n) && (n > 0 ==> tag >= Pow16(n - 1))
            && forall i :: 0 <= i < n ==> Digits(tag)[i].Mark? && Digits(tag)[i].v < 16
    ensures Value(Digits(tag)) == tag
    decreases tag
  {
    if tag > 0 {
      DigitsAre(tag / 16);
      assert Digits(tag)[..|Digits(tag)| - 1] == Digits(tag / 16);
    }
  }

  /** What marker frames stand for in base 16. */
  function Value(frames: seq<Frame>): nat {
    if frames == [] then 0
    else
      var n := |frames| - 1;
      16 * Value(frames[..n]) + if frames[n].Mark? then frames[n].v else 0
  }

  function TagsFrames(tags: seq<nat>): seq<Frame> {
    if tags == [] then [] else TagFrames(tags[0]) + TagsFrames(tags[1..])
  }

  /** The frames that are markers; _m itself, the callbacks and everything else are not. */
  function Marks(stack: seq<Frame>): seq<Frame> {
    if stack == [] then []
    else (if stack[0].Other? then [] else [stack[0]]) + Marks(stack[1..])
  }

  /** Reading, with current_tag so far; it is a 64-bit unsigned integer. */
  function ReadFrom(stack: seq<Frame>, current: nat): seq<nat> {
    if stack == [] then []
    else
      match stack[0]
      case Other => ReadFrom(stack[1..], current)
      case MarkS => [current] + ReadFrom(stack[1..], 0)
      case Mark(v) => ReadFrom(stack[1..], (current * 16 % UINT + v) % UINT)
  }

  /** readStackTags */
  method ReadStackTags(stack: seq<Frame>) returns (tags: seq<nat>)
    ensures tags == ReadFrom(stack, 0)
  {
    var current: nat := 0;
    tags := [];
    Empty(ReadFrom(stack, 0));
    assert stack[0..] == stack;
    for i := 0 to |stack|
      invariant tags + ReadFrom(stack[i..], current) == ReadFrom(stack, 0)
    {
      assert stack[i..][1..] == stack[i + 1..];
      match stack[i] {
        case Other =>
        case MarkS =>
          Assoc(tags, [current], ReadFrom(stack[i + 1..], 0));
          tags := tags + [current];
          current := 0;
        case Mark(v) =>
          current := (current * 16 % UINT + v) % UINT;
      }
    }
    Empty(tags);
  }

  lemma {:induction false} OthersIgnored(stack: seq<Frame>, current: nat)
    ensures ReadFrom(stack, current) == ReadFrom(Marks(stack), current)
  {
    if stack != [] {
      var m := Marks(stack[1..]);
      match stack[0] {
        case Other =>
          Empty(m);
          OthersIgnored(stack[1..], current);
        case MarkS =>
          assert ([stack[0]] + m)[1..] == m;
          OthersIgnored(stack[1..], 0);
        case Mark(v) =>
          assert ([stack[0]] + m)[1..] == m;
          OthersIgnored(stack[1..], (current * 16 % UINT + v) % UINT);
      }
    }
  }

  predicate AllUint(tags: seq<nat>) { forall i :: 0 <= i < |tags| ==> tags[i] < UINT }

  lemma ShiftIn(tag: nat)
    requires tag < UINT
    ensures (tag / 16 * 16 % UINT + tag % 16) % UINT == tag
  {
    var high := tag / 16 * 16;
    assert tag == high + tag % 16;
    assert high % UINT == high;
  }

  lemma {:induction false} DigitsRead(tag: nat, more: seq<Frame>)
    requires tag < UINT
    ensures ReadFrom(Digits(tag) + more, 0) == ReadFrom(more, tag)
    decreases tag
  {
    if tag == 0 {
      Empty(more);
    } else {
      var d := [Mark(tag % 16)];
      ShiftIn(tag);
      assert (d + more)[1..] == more;
      assert ReadFrom(d + more, tag / 16) == ReadFrom(more, tag);
      DigitsRead(tag / 16, d + more);
      Assoc(Digits(tag / 16), d, more);
    }
  }

  /** For any nesting of tagged calls, with any other frames in between, the tags come
      back, innermost first. */
  lemma {:induction false} TagsReadBack(stack: seq<Frame>, tags: seq<nat>)
    requires Marks(stack) == TagsFrames(tags) && AllUint(tags)
    ensures ReadFrom(stack, 0) == tags
  {
    OthersIgnored(stack, 0);
    MarkersReadBack(tags);
  }

  lemma {:induction false} MarkersReadBack(tags: seq<nat>)
    requires AllUint(tags)
    ensures ReadFrom(TagsFrames(tags), 0) == tags
  {
    if tags != [] {
      var more := TagsFrames(tags[1..]);
      Assoc(Digits(tags[0]), [MarkS], more);
      DigitsRead(tags[0], [MarkS] + more);
      assert ([MarkS] + more)[1..] == more;
      MarkersReadBack(tags[1..]);
      assert [tags[0]] + tags[1..] == tags;
    }
  }

  /** A trace cut off at any depth yields a prefix of the tags. */
  lemma {:induction false} CutStackGivesPrefix(stack: seq<Frame>, n: nat, current: nat)
    requires n <= |stack|
    ensures ReadFrom(stack[..n], current) <= ReadFrom(stack, current)
  {
    if n > 0 {
      assert stack[..n][1..] == stack[1..][..n - 1];
      match stack[0] {
        case Other => CutStackGivesPrefix(stack[1..], n - 1, current);
        case MarkS => CutStackGivesPrefix(stack[1..], n - 1, 0);
        case Mark(v) => CutStackGivesPrefix(stack[1..], n - 1, (current * 16 % UINT + v) % UINT);
      }
    }
  }

  /** How many tags begin in these frames. */
  function Starts(stack: seq<Frame>): nat {
    if stack == [] then 0 else (if stack[0].MarkS? then 1 else 0) + Starts(stack[1..])
  }

  lemma {:induction false} OneTagPerStart(stack: seq<Frame>, current: nat)
    ensures |ReadFrom(stack, current)| == Starts(stack)
  {
    if stack != [] {
      match stack[0] {
        case Other => OneTagPerStart(stack[1..], current);
        case MarkS => OneTagPerStart(stack[1..], 0);
        case Mark(v) => OneTagPerStart(stack[1..], (current * 16 % UINT + v) % UINT);
      }
    }
  }

  /** A trace cut off after n frames yields as many of the innermost tags as have their
      whole markers in it. */
  lemma CutStackTags(stack: seq<Frame>, tags: seq<nat>, n: nat)
    requires Marks(stack) == TagsFrames(tags) && AllUint(tags) && n <= |stack|
    ensures Starts(stack[..n]) <= |tags| && ReadFrom(stack[..n], 0) == tags[..Starts(stack[..n])]
  {
    TagsReadBack(stack, tags);
    CutStackGivesPrefix(stack, n, 0);
    OneTagPerStart(stack[..n], 0);
  }
}

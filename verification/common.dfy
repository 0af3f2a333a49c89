/** Shared vocabulary: optional values, results of operations that may raise,
    and the string-building idiom the prompts use (Python's `prompt += ...`
    inside an `enumerate` loop). */
module Common {

  /** A value that may be absent (Python's `None`, or a missing attribute). */
  datatype Option<T> = None | Some(value: T)

  /** The outcome of a step that may raise instead of returning. */
  datatype Result<T, E> = Success(value: T) | Failure(error: E)

  /** A loop whose body may raise: `f` is applied to each element in order, and the
      first failure ends the loop and becomes its outcome. */
  function MapResult<X, Y, E>(xs: seq<X>, f: X -> Result<Y, E>): (r: Result<seq<Y>, E>)
    ensures r.Success? <==> forall i :: 0 <= i < |xs| ==> f(xs[i]).Success?
    ensures r.Success? ==> |r.value| == |xs| && forall i :: 0 <= i < |xs| ==> r.value[i] == f(xs[i]).value
    decreases |xs|
  {
    if |xs| == 0 then Success([])
    else
      match f(xs[0])
      case Failure(e) => Failure(e)
      case Success(y) =>
        var rest := MapResult(xs[1..], f);
        assert forall i :: 1 <= i < |xs| ==> xs[i] == xs[1..][i - 1];
        match rest
        case Failure(e) => Failure(e)
        case Success(ys) => Success([y] + ys)
  }

  /** The strings of `parts` joined end to end, in order. */
  function Concat(parts: seq<string>): string
  {
    if |parts| == 0 then "" else parts[0] + Concat(parts[1..])
  }

  /** The blocks a numbered loop emits: element `xs[i]` rendered with label `start + i`. */
  function Numbered<T>(xs: seq<T>, start: nat, block: (nat, T) -> string): (r: seq<string>)
    ensures |r| == |xs|
    ensures forall i :: 0 <= i < |xs| ==> r[i] == block(start + i, xs[i])
  {
    seq(|xs|, i requires 0 <= i < |xs| => block(start + i, xs[i]))
  }

  /** `for i, x in enumerate(xs): acc += block(i + start, x)`, evaluated step by step
      exactly as the loop does, left to right. */
  function EnumerateAppend<T>(acc: string, xs: seq<T>, start: nat, block: (nat, T) -> string): (r: string)
    ensures r == acc + Concat(Numbered(xs, start, block))
    decreases |xs|
  {
    if |xs| == 0 then acc
    else
      var r := EnumerateAppend(acc + block(start, xs[0]), xs[1..], start + 1, block);
      assert Numbered(xs, start, block)[1..] == Numbered(xs[1..], start + 1, block);
      r
  }

  lemma AppendAssoc<T>(a: seq<T>, b: seq<T>, c: seq<T>)
    ensures (a + b) + c == a + (b + c)
  {
  }

  /** Joining distributes over sequence concatenation. */
  lemma {:induction false} ConcatAppend(a: seq<string>, b: seq<string>)
    ensures Concat(a + b) == Concat(a) + Concat(b)
    decreases |a|
  {
    if |a| == 0 {
      assert a + b == b;
    } else {
      assert (a + b)[1..] == a[1..] + b;
      ConcatAppend(a[1..], b);
    }
  }

  /** Every part appears, whole and in its place, in the joined string. */
  lemma {:induction false} ConcatSplit(parts: seq<string>, i: nat)
    requires i < |parts|
    ensures Concat(parts) == Concat(parts[..i]) + parts[i] + Concat(parts[i + 1..])
  {
    var tail := [parts[i]] + parts[i + 1..];
    assert parts == parts[..i] + tail;
    ConcatAppend(parts[..i], tail);
    assert tail[1..] == parts[i + 1..];
    assert Concat(tail) == parts[i] + Concat(parts[i + 1..]);
  }

  /** `x` occurs somewhere inside `s`. */
  predicate Contains(s: string, x: string)
  {
    exists k :: 0 <= k <= |s| - |x| && OccursAt(s, x, k)
  }

  /** `x` occurs inside `s` starting at index `k`. */
  predicate OccursAt(s: string, x: string, k: int)
  {
    0 <= k <= |s| - |x| && s[k..k + |x|] == x
  }

  lemma ContainsWitness(pre: string, x: string, post: string)
    ensures Contains(pre + x + post, x)
  {
    var s := pre + x + post;
    assert s[|pre|..|pre| + |x|] == x;
    assert OccursAt(s, x, |pre|);
  }

  /** A part of a joined string occurs in any text that ends with the join. */
  lemma ContainsPart(lead: string, parts: seq<string>, i: nat)
    requires i < |parts|
    ensures Contains(lead + Concat(parts), parts[i])
  {
    ConcatSplit(parts, i);
    var pre := lead + Concat(parts[..i]);
    var post := Concat(parts[i + 1..]);
    assert lead + Concat(parts) == pre + parts[i] + post;
    ContainsWitness(pre, parts[i], post);
  }

  /** Text appended after an occurrence does not remove it. */
  lemma ContainsExtend(s: string, x: string, t: string)
    requires Contains(s, x)
    ensures Contains(s + t, x)
  {
    var k :| 0 <= k <= |s| - |x| && OccursAt(s, x, k);
    assert (s + t)[k..k + |x|] == s[k..k + |x|];
    assert OccursAt(s + t, x, k);
  }

  /** A string placed after fixed text can be read back from it. */
  lemma OccursAtEnd(a: string, x: string)
    ensures OccursAt(a + x, x, |a|)
  {
    assert (a + x)[|a|..|a| + |x|] == x;
  }

  /** Text appended after an occurrence leaves it in place. */
  lemma OccursAtExtend(s: string, x: string, k: int, t: string)
    requires OccursAt(s, x, k)
    ensures OccursAt(s + t, x, k)
  {
    assert (s + t)[k..k + |x|] == s[k..k + |x|];
  }

  /** A string placed between fixed text can be read back from it. */
  lemma OccursAtMiddle(a: string, x: string, b: string)
    ensures OccursAt(a + x + b, x, |a|)
  {
    assert (a + x + b)[|a|..|a| + |x|] == x;
  }

  /** Equal strings with the same surroundings have equal middles. */
  lemma CancelAround(a: string, x: string, y: string, b: string)
    requires a + x + b == a + y + b
    ensures x == y
  {
    assert |x| == |y|;
    OccursAtMiddle(a, x, b);
    OccursAtMiddle(a, y, b);
  }

  /** No element occurs twice. */
  predicate Distinct<T(==)>(xs: seq<T>)
  {
    forall i, j :: 0 <= i < j < |xs| ==> xs[i] != xs[j]
  }
}

/** The three pure operations of the `HelloWorldPlus` demo class: a constant
    greeting, a range-checked sum of two Java `int`s and a null-safe string
    reversal. Strings are sequences of Unicode scalar values, so a Java string
    is read as its sequence of code points. */
module HelloWorldPlus {
  import opened Wrappers
  import opened Int32

  // ---------------------------------------------------------------------------
  // getGreeting
  // ---------------------------------------------------------------------------

  /** `sub` occurs somewhere inside `s` (Java's `String.contains`). */
  predicate Contains(s: string, sub: string) {
    exists i :: 0 <= i <= |s| && sub <= s[i..]
  }

  /** The fixed greeting: never empty, and it mentions "Welcome". */
  function GetGreeting(): (r: string)
    ensures |r| > 0
    ensures Contains(r, "Welcome")
  {
    var g := "Welcome to HelloWorldPlus!";
    assert "Welcome" <= g[0..];
    g
  }

  /** The exact text the test suite expects. */
  lemma GreetingExample()
    ensures GetGreeting() == "Welcome to HelloWorldPlus!"
  {
  }

  // ---------------------------------------------------------------------------
  // calculateSum
  // ---------------------------------------------------------------------------

  /** Both operands must lie in this closed range. */
  const LIMIT: int := 1_000_000

  predicate InSumRange(x: int32) {
    -LIMIT <= x as int <= LIMIT
  }

  /** `calculateSum(a, b)`: rejects an operand outside [-1,000,000, 1,000,000],
      otherwise returns Java's `a + b`. */
  function CalculateSum(a: int32, b: int32): (r: Result<int32>)
    ensures r.Ok? <==> InSumRange(a) && InSumRange(b)
    ensures r.InvalidArgument? <==>
              a as int < -LIMIT || a as int > LIMIT || b as int < -LIMIT || b as int > LIMIT
    ensures r.Ok? ==> r.value as int == a as int + b as int
    ensures r.Ok? ==> -2 * LIMIT <= r.value as int <= 2 * LIMIT
  {
    if a < -1000000 || a > 1000000 || b < -1000000 || b > 1000000 then
      InvalidArgument
    else
      Ok(Add(a, b))
  }

  /** Under the guard, Java's wrapping `+` never wraps: it is the mathematical
      sum, which sits well inside the `int` range. */
  lemma GuardPreventsOverflow(a: int32, b: int32)
    requires InSumRange(a) && InSumRange(b)
    ensures InRange(a as int + b as int)
    ensures Add(a, b) as int == a as int + b as int
    ensures CalculateSum(a, b) == Ok(Add(a, b))
  {
  }

  /** Swapping the operands changes nothing: both calls fail or both return
      the same value. */
  lemma CalculateSumSymmetric(a: int32, b: int32)
    ensures CalculateSum(a, b).Ok? <==> CalculateSum(b, a).Ok?
    ensures CalculateSum(a, b) == CalculateSum(b, a)
  {
  }

  /** The test suite's sums, and the documented rejection of an out-of-range operand. */
  lemma CalculateSumExamples()
    ensures CalculateSum(5, 10) == Ok(15)
    ensures CalculateSum(-5, 10) == Ok(5)
    ensures CalculateSum(1000001, 0) == InvalidArgument
    ensures CalculateSum(0, -1000001) == InvalidArgument
    ensures CalculateSum(1000000, 1000000) == Ok(2000000)
  {
  }

  // ---------------------------------------------------------------------------
  // reverseString
  // ---------------------------------------------------------------------------

  /** Reference definition of reversal: the first character goes last. */
  function Reverse(s: string): (r: string)
    ensures |r| == |s|
    ensures forall i :: 0 <= i < |s| ==> r[i] == s[|s| - 1 - i]
  {
    if |s| == 0 then [] else Reverse(s[1..]) + [s[0]]
  }

  /** `new StringBuilder(s).reverse().toString()`: swaps characters pairwise from
      the two ends towards the middle. */
  method ReverseCodeUnits(s: string) returns (r: string)
    ensures r == Reverse(s)
  {
    r := s;
    var n := |s|;
    var j := 0;
    while j < n / 2
      invariant 0 <= j <= n / 2
      invariant |r| == n
      invariant forall k :: 0 <= k < j ==> r[k] == s[n - 1 - k] && r[n - 1 - k] == s[k]
      invariant forall k :: j <= k < n - j ==> r[k] == s[k]
    {
      var k := n - 1 - j;
      var cj, ck := r[j], r[k];
      r := r[j := ck][k := cj];
      j := j + 1;
    }
    assert forall i :: 0 <= i < n ==> r[i] == Reverse(s)[i];
  }

  /** `reverseString(input)`: `null` and `""` come back unchanged; any other
      string comes back reversed. */
  function ReverseString(input: Option<string>): (r: Option<string>)
    ensures input.None? <==> r.None?
    ensures input == Some([]) ==> r == Some([])
    ensures input.Some? ==> |r.value| == |input.value|
    ensures input.Some? ==>
              forall i :: 0 <= i < |input.value| ==> r.value[i] == input.value[|input.value| - 1 - i]
  {
    match input
    case None => input
    case Some(s) => if |s| == 0 then input else Some(Reverse(s))
  }

  /** Reversing twice gives back the original string. */
  lemma ReverseInvolution(s: string)
    ensures Reverse(Reverse(s)) == s
  {
  }

  /** `reverseString` is an involution on every input, `null` and `""` included. */
  lemma ReverseStringInvolution(input: Option<string>)
    ensures ReverseString(ReverseString(input)) == input
  {
    if input.Some? {
      ReverseInvolution(input.value);
    }
  }

  /** The test suite's reversals. */
  lemma ReverseStringExamples()
    ensures ReverseString(None) == None
    ensures ReverseString(Some("")) == Some("")
    ensures ReverseString(Some("Java21")) == Some("12avaJ")
  {
    assert Reverse("Java21") == "12avaJ";
  }
}

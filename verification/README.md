# HelloWorldPlus in Dafny

A model of the `HelloWorldPlus` demo class (Java): its three pure operations.

- `getGreeting()` returns a fixed greeting.
- `calculateSum(a, b)` adds two Java `int`s. It throws `IllegalArgumentException` when either operand lies outside [-1,000,000, 1,000,000].
- `reverseString(input)` returns `null` and `""` unchanged and reverses every other string.

Modules:

- `Wrappers` (`wrappers.dfy`): `Option` stands for a possibly-`null` reference. `Result` is `Ok(value)` or `InvalidArgument`, the one exception kind the class throws.
- `Int32` (`int32.dfy`): the `int32` newtype for Java's `int`. Java's `+` is modelled as two's-complement wrapping addition (`Add`), so "no overflow" is a proved fact, not an assumption.
- `HelloWorldPlus` (`hello_world_plus.dfy`): the three operations and the lemmas about them. `StringBuilder.reverse` is modelled twice. `Reverse` is a recursive reference definition. `ReverseCodeUnits` is an in-place swap loop, proved equal to it.

Strings are `seq<char>`. A Dafny `char` is a Unicode scalar value, so a Java string is read as its sequence of code points. For well-formed UTF-16, `StringBuilder.reverse` keeps each surrogate pair together. It therefore reverses the code points, which is the plain sequence reversal modelled here.

## Model

| member | source | states |
|---|---|---|
| Int32.Wrap | src/main/java/com/example/HelloWorldPlus.java:71 | the 32-bit result is congruent to the mathematical value modulo 2^32, and equals it whenever that value fits in an `int` |
| Int32.Add | src/main/java/com/example/HelloWorldPlus.java:71 | Java `a + b` on `int`s is the sum modulo 2^32, and is the exact sum when the sum fits in an `int` |
| Int32.WrapUnique | src/main/java/com/example/HelloWorldPlus.java:71 | any `int` congruent to a value modulo 2^32 is the wrapped value, so the 32-bit result of `+` is determined uniquely |
| Int32.AddOverflowExample | src/main/java/com/example/HelloWorldPlus.java:71 | unguarded `int` addition does overflow: `MAX_VALUE + 1` is `MIN_VALUE` |
| HelloWorldPlus.GetGreeting | src/main/java/com/example/HelloWorldPlus.java:55-57 | the greeting is non-empty and contains "Welcome" |
| HelloWorldPlus.GreetingExample | src/test/java/com/example/HelloWorldPlusTest.java:14-17 | the greeting is exactly "Welcome to HelloWorldPlus!" |
| HelloWorldPlus.CalculateSum | src/main/java/com/example/HelloWorldPlus.java:67-72 | succeeds exactly when both operands lie in [-1,000,000, 1,000,000] and fails with InvalidArgument exactly when one lies outside; a success is the mathematical sum and lies in [-2,000,000, 2,000,000] |
| HelloWorldPlus.GuardPreventsOverflow | src/main/java/com/example/HelloWorldPlus.java:68-71 | for in-range operands the sum fits in an `int`, Java's wrapping `+` equals the mathematical sum, and the call returns it |
| HelloWorldPlus.CalculateSumSymmetric | src/main/java/com/example/HelloWorldPlus.java:68-71 | swapping the operands gives the same outcome: both fail or both return the same value |
| HelloWorldPlus.CalculateSumExamples | src/test/java/com/example/HelloWorldPlusTest.java:22-31 | (5, 10) gives 15, (-5, 10) gives 5, an operand of magnitude 1,000,001 is rejected, (1,000,000, 1,000,000) gives 2,000,000 |
| HelloWorldPlus.Reverse | src/main/java/com/example/HelloWorldPlus.java:85 | the reversal has the input's length and character i of it is character n-1-i of the input |
| HelloWorldPlus.ReverseCodeUnits | src/main/java/com/example/HelloWorldPlus.java:85 | swapping characters pairwise from both ends inwards yields exactly the reference reversal |
| HelloWorldPlus.ReverseString | src/main/java/com/example/HelloWorldPlus.java:81-86 | null maps to null and only null does; "" maps to ""; any string maps to a string of the same length whose character i is the input's character n-1-i |
| HelloWorldPlus.ReverseInvolution | src/main/java/com/example/HelloWorldPlus.java:85 | reversing a string twice gives the original string |
| HelloWorldPlus.ReverseStringInvolution | src/main/java/com/example/HelloWorldPlus.java:81-86 | applying reverseString twice returns the input, for null, "" and every other string |
| HelloWorldPlus.ReverseStringExamples | src/test/java/com/example/HelloWorldPlusTest.java:36-52 | "Java21" becomes "12avaJ", "" stays "", null stays null |

## Left out

- `main` and `log` (src/main/java/com/example/HelloWorldPlus.java:33-48): console output and the wall-clock timestamp; they are I/O with nothing to state.
- `TIME_FORMATTER` (src/main/java/com/example/HelloWorldPlus.java:24-25): used only by `log`.
- The exception message "Numbers must be within valid range!": only the error kind `InvalidArgument` is modelled.
- Lone surrogate code units: a Dafny `char` cannot hold one. On malformed UTF-16, `StringBuilder.reverse` can join a low and a following high surrogate into a new pair, and then reversal is no longer an involution. That behaviour of the Java library is not modelled.
- String length: Java's `length()` counts UTF-16 code units, while the model counts code points. The two agree on text without supplementary characters.
- The JUnit test class is not modelled as such. Its expected values appear only as the example lemmas.

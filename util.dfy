/** Helpers shared by the whole model: optional values, the string operations of
    java.lang.String that the federation code relies on, and decimal rendering of
    integers. */
module Util {

  datatype Option<T> = None | Some(value: T)

  /** The Java exception classes the federation code throws or inspects. */
  datatype ExceptionClass =
    | RuntimeException
    | UnsupportedOperationException
    | NoSuchElementException
    | FedXRuntimeException
    | FedXException
    | FedXQueryException
    | QueryEvaluationException
    | QueryInterruptedException
    | ValueExprEvaluationException
    | RepositoryException
    | SocketException
    | OtherException(simpleName: string)

  /** A thrown exception: its class, its message (null when absent) and its cause. */
  datatype Exception = Exception(cls: ExceptionClass, message: Option<string>, cause: Option<Exception>)

  /** An exception without a cause, as most `throw new X("...")` statements build it. */
  function Raise(cls: ExceptionClass, message: string): Exception
  {
    Exception(cls, Some(message), None)
  }

  /** The `NullPointerException` of a call on an absent object. */
  const NullPointer: Exception := Exception(OtherException("NullPointerException"), None, None)

  /** `getClass().getSimpleName()` of an exception. */
  function SimpleName(cls: ExceptionClass): string
  {
    match cls
    case RuntimeException => "RuntimeException"
    case UnsupportedOperationException => "UnsupportedOperationException"
    case NoSuchElementException => "NoSuchElementException"
    case FedXRuntimeException => "FedXRuntimeException"
    case FedXException => "FedXException"
    case FedXQueryException => "FedXQueryException"
    case QueryEvaluationException => "QueryEvaluationException"
    case QueryInterruptedException => "QueryInterruptedException"
    case ValueExprEvaluationException => "ValueExprEvaluationException"
    case RepositoryException => "RepositoryException"
    case SocketException => "SocketException"
    case OtherException(n) => n
  }

  /** A possibly null string as string concatenation renders it. */
  function Str(s: Option<string>): string
  {
    if s.Some? then s.value else "null"
  }

  /** The exception `changeExceptionMessage(prefix, ex, cls)` builds through the
      `(String, Throwable)` constructor of the exception's class: the message
      becomes `prefix + "." + ex.getMessage()`, class and cause stay. */
  function ChangedMessage(prefix: string, ex: Exception): (r: Exception)
    ensures r.cls == ex.cls && r.cause == ex.cause
  {
    Exception(ex.cls, Some(prefix + "." + Str(ex.message)), ex.cause)
  }

  /** The result of an operation that returns a value or throws. */
  datatype Result<T> = Ok(value: T) | Err(error: Exception)

  /** The outcome of a void operation that may throw. */
  datatype Outcome = Success | Failure(error: Exception)

  /** The elements of a sequence as a set. */
  function Elems<T>(s: seq<T>): set<T>
  {
    set x | x in s
  }

  /** No element occurs twice. */
  predicate Distinct<T(==)>(s: seq<T>)
  {
    forall i, j :: 0 <= i < j < |s| ==> s[i] != s[j]
  }

  // ---------------------------------------------------------------------------
  // String.replace(CharSequence, CharSequence)
  // ---------------------------------------------------------------------------

  /** Java's `String.replace(target, replacement)` for a non-empty target:
      occurrences are found from left to right and never overlap. */
  function ReplaceAll(s: string, target: string, replacement: string): string
    requires |target| > 0
    decreases |s|
  {
    if |s| < |target| then s
    else if s[..|target|] == target then replacement + ReplaceAll(s[|target|..], target, replacement)
    else [s[0]] + ReplaceAll(s[1..], target, replacement)
  }

  /** True iff `t` occurs in `s` at position `i`. */
  predicate OccursAt(s: string, t: string, i: int)
  {
    0 <= i && i + |t| <= |s| && s[i..i + |t|] == t
  }

  /** Replacing one character by another keeps the length and rewrites exactly
      the positions that held the old character. */
  lemma {:induction false} ReplaceCharPointwise(s: string, c: char, d: char)
    ensures |ReplaceAll(s, [c], [d])| == |s|
    ensures forall i :: 0 <= i < |s| ==>
      ReplaceAll(s, [c], [d])[i] == (if s[i] == c then d else s[i])
  {
    if |s| > 0 {
      ReplaceCharPointwise(s[1..], c, d);
      assert s[..1] == [s[0]];
    }
  }

  /** After every `c` has been replaced by a different `d`, no `c` is left. */
  lemma ReplaceCharRemovesAll(s: string, c: char, d: char)
    requires c != d
    ensures c !in ReplaceAll(s, [c], [d])
  {
    ReplaceCharPointwise(s, c, d);
    var r := ReplaceAll(s, [c], [d]);
    forall i | 0 <= i < |r| ensures r[i] != c {
    }
  }

  /** A string in which the target does not occur is left unchanged. */
  lemma {:induction false} ReplaceAllWithoutOccurrence(s: string, target: string, replacement: string)
    requires |target| > 0
    requires forall i :: !OccursAt(s, target, i)
    ensures ReplaceAll(s, target, replacement) == s
  {
    if |s| >= |target| {
      assert !OccursAt(s, target, 0);
      forall i ensures !OccursAt(s[1..], target, i) {
        if OccursAt(s[1..], target, i) {
          assert s[1..][i..i + |target|] == s[i + 1..i + 1 + |target|];
          assert OccursAt(s, target, i + 1);
        }
      }
      ReplaceAllWithoutOccurrence(s[1..], target, replacement);
    }
  }

  /** Removing a target never makes a string longer. */
  lemma {:induction false} RemoveAllShortens(s: string, target: string)
    requires |target| > 0
    ensures |ReplaceAll(s, target, "")| <= |s|
  {
    if |s| >= |target| {
      if s[..|target|] == target {
        RemoveAllShortens(s[|target|..], target);
      } else {
        RemoveAllShortens(s[1..], target);
      }
    }
  }

  // ---------------------------------------------------------------------------
  // Joining with a separator (the StringBuilder loops of the signature printers)
  // ---------------------------------------------------------------------------

  /** `parts[0] + sep + parts[1] + ... + sep + parts[n-1]`, empty for no parts. */
  function Join(parts: seq<string>, sep: string): string
  {
    if |parts| == 0 then ""
    else if |parts| == 1 then parts[0]
    else Join(parts[..|parts| - 1], sep) + sep + parts[|parts| - 1]
  }

  /** Number of occurrences of character `c` in `s`. */
  function CountChar(s: string, c: char): nat
  {
    if s == [] then 0 else (if s[0] == c then 1 else 0) + CountChar(s[1..], c)
  }

  lemma {:induction false} CountCharAppend(a: string, b: string, c: char)
    ensures CountChar(a + b, c) == CountChar(a, c) + CountChar(b, c)
  {
    if a == [] {
      assert a + b == b;
    } else {
      assert (a + b)[1..] == a[1..] + b;
      CountCharAppend(a[1..], b, c);
    }
  }

  /** Read from the front, a join is the first part, then the separator, then
      the join of the rest: the parts appear in list order. */
  lemma {:induction false} JoinFront(parts: seq<string>, sep: string)
    requires |parts| >= 2
    ensures Join(parts, sep) == parts[0] + sep + Join(parts[1..], sep)
  {
    var n := |parts|;
    if n > 2 {
      JoinFront(parts[..n - 1], sep);
      assert parts[..n - 1][1..] == parts[1..][..n - 2];
      assert parts[1..][n - 2] == parts[n - 1];
    } else {
      assert parts[1..] == [parts[1]];
    }
  }

  /** When no part contains the separator's leading character, the join holds
      that character exactly n-1 times for n parts. */
  lemma {:induction false} JoinSeparatorCount(parts: seq<string>, sep: string)
    requires |sep| > 0
    requires CountChar(sep, sep[0]) == 1
    requires forall i :: 0 <= i < |parts| ==> CountChar(parts[i], sep[0]) == 0
    ensures CountChar(Join(parts, sep), sep[0]) == if |parts| == 0 then 0 else |parts| - 1
  {
    var n := |parts|;
    if n >= 2 {
      JoinSeparatorCount(parts[..n - 1], sep);
      CountCharAppend(Join(parts[..n - 1], sep), sep, sep[0]);
      CountCharAppend(Join(parts[..n - 1], sep) + sep, parts[n - 1], sep[0]);
    }
  }

  // ---------------------------------------------------------------------------
  // Java int arithmetic
  // ---------------------------------------------------------------------------

  /** A Java `int` result of an arithmetic expression. */
  function Wrap32(x: int): (r: int)
    ensures -0x8000_0000 <= r < 0x8000_0000
    ensures (r - x) % 0x1_0000_0000 == 0
  {
    var m := x % 0x1_0000_0000;
    if m >= 0x8000_0000 then m - 0x1_0000_0000 else m
  }

  // ---------------------------------------------------------------------------
  // Integer.toString
  // ---------------------------------------------------------------------------

  function DigitChar(d: nat): char
    requires d < 10
  {
    "0123456789"[d]
  }

  function DigitValue(c: char): nat
  {
    if '0' <= c <= '9' then (c as int - '0' as int) as nat else 0
  }

  /** Decimal digits of a natural number, no leading zeros. */
  function NatToString(n: nat): string
    decreases n
  {
    if n < 10 then [DigitChar(n)] else NatToString(n / 10) + [DigitChar(n % 10)]
  }

  /** Java's Integer.toString: a minus sign for negative numbers. */
  function IntToString(i: int): string
  {
    if i < 0 then "-" + NatToString(-i) else NatToString(i)
  }

  function ParseDigits(s: string): nat
  {
    if s == [] then 0 else ParseDigits(s[..|s| - 1]) * 10 + DigitValue(s[|s| - 1])
  }

  /** Reading the rendered digits back gives the number: the rendering loses
      nothing. */
  lemma {:induction false} NatToStringRoundTrip(n: nat)
    ensures |NatToString(n)| > 0
    ensures ParseDigits(NatToString(n)) == n
  {
    if n >= 10 {
      NatToStringRoundTrip(n / 10);
      var s := NatToString(n);
      assert s[..|s| - 1] == NatToString(n / 10);
    }
  }
}

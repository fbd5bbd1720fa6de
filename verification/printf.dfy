/** The part of the C library's formatted output the asset loaders rely on:
    expansion of a format string whose only conversion is `%s`, and the
    bounded write of `snprintf` (section 7.21.6.5 of ISO/IEC 9899:2011),
    which stores at most n - 1 characters followed by a NUL. */
module Printf {

  /** A `const char *` argument: the string ends at its first NUL, so no
      NUL occurs inside it. */
  type CString = s: string | '\0' !in s witness ""

  /** Number of `%s` conversions in `fmt`, scanned left to right. */
  function Conversions(fmt: string): nat
    decreases |fmt|
  {
    if |fmt| == 0 then 0
    else if |fmt| >= 2 && fmt[0] == '%' && fmt[1] == 's' then 1 + Conversions(fmt[2..])
    else Conversions(fmt[1..])
  }

  /** Total length of a list of string arguments. */
  function TotalLength(args: seq<string>): nat
  {
    if |args| == 0 then 0 else |args[0]| + TotalLength(args[1..])
  }

  /** The characters `printf` produces for `fmt`: each `%s` is replaced by
      the next argument and every other character is copied. Arguments
      beyond the last conversion are ignored, as in C. `%s` is the only
      conversion the library uses, so it is the only one modelled. */
  function Expand(fmt: string, args: seq<string>): (out: string)
    requires Conversions(fmt) <= |args|
    ensures Conversions(fmt) == 0 ==> out == fmt
    ensures |out| == |fmt| - 2 * Conversions(fmt) + TotalLength(args[..Conversions(fmt)])
    decreases |fmt|
  {
    if |fmt| == 0 then ""
    else if |fmt| >= 2 && fmt[0] == '%' && fmt[1] == 's' then
      var rest := Expand(fmt[2..], args[1..]);
      assert args[..Conversions(fmt)][1..] == args[1..][..Conversions(fmt[2..])];
      args[0] + rest
    else [fmt[0]] + Expand(fmt[1..], args)
  }

  /** What `snprintf(buffer, n, fmt, ...)` leaves as the C string in the
      buffer: the expansion cut to its first n - 1 characters. */
  function Snprintf(n: nat, fmt: string, args: seq<string>): (written: string)
    requires 0 < n
    requires Conversions(fmt) <= |args|
    ensures written <= Expand(fmt, args)
    ensures |written| <= n - 1
    ensures |Expand(fmt, args)| <= n - 1 ==> written == Expand(fmt, args)
    ensures |Expand(fmt, args)| > n - 1 ==> |written| == n - 1
  {
    var full := Expand(fmt, args);
    if |full| < n then full else full[..n - 1]
  }

  /** `snprintf` at the level of the buffer: `buffer` holds the n bytes the
      caller passed (their previous contents), `after` the same n bytes once
      the call returns, `count` the value it returns. The first characters
      are the truncated expansion, the next one is the terminating NUL, and
      the rest of the buffer is untouched. */
  method SnprintfInto(buffer: seq<char>, fmt: string, args: seq<string>)
      returns (after: seq<char>, count: nat)
    requires 0 < |buffer|
    requires Conversions(fmt) <= |args|
    ensures |after| == |buffer|
    ensures count == |Expand(fmt, args)|
    ensures var w := Snprintf(|buffer|, fmt, args);
      && after[..|w|] == w
      && after[|w|] == '\0'
      && after[|w| + 1..] == buffer[|w| + 1..]
  {
    var full := Expand(fmt, args);
    var k := if |full| < |buffer| then |full| else |buffer| - 1;
    after := buffer;
    var i := 0;
    while i < k
      invariant 0 <= i <= k
      invariant |after| == |buffer|
      invariant after[..i] == full[..i]
      invariant after[i..] == buffer[i..]
    {
      after := after[i := full[i]];
      i := i + 1;
    }
    after := after[k := '\0'];
    count := |full|;
  }
}

/**
 * main's command-line decisions.  The option letters are the ones getopt
 * returns for the option string "cvh", in order (any other letter stands for
 * getopt's '?'); the positional arguments are what is left of argv afterwards.
 * atoi is modelled as the C library describes it (leading white space, an
 * optional sign, the longest run of digits); strchr plus `*p = 0` as splitting
 * the host argument at its first ':'.
 */
module Cli {
  import opened Outcomes

  /** What main goes on to do. */
  datatype Decision =
    | Usage(status: int)   // usage() is printed; main returns 0 or calls exit(-1)
    | Start(port: int, host: string, remotePort: int, color: bool)   // Trance t(...); t.process()

  /** Letters getopt accepts with the option string "cvh". */
  predicate IsOption(c: char)
  {
    c == 'c' || c == 'v' || c == 'h'
  }

  /** isspace in the C locale. */
  predicate IsSpace(c: char)
  {
    c == ' ' || c == '\t' || c == '\n' || c == '\U{0B}' || c == '\U{0C}' || c == '\r'
  }

  predicate IsDigit(c: char)
  {
    '0' as int <= c as int <= '9' as int
  }

  /** How often c occurs in s. */
  function Count(s: seq<char>, c: char): (n: nat)
  {
    if s == [] then 0 else Count(s[..|s| - 1], c) + (if s[|s| - 1] == c then 1 else 0)
  }

  /** s without its leading white space. */
  function SkipSpaces(s: string): (t: string)
    ensures |t| <= |s| && t == s[|s| - |t|..]
    ensures forall k :: 0 <= k < |s| - |t| ==> IsSpace(s[k])
    ensures t != [] ==> !IsSpace(t[0])
  {
    if s != [] && IsSpace(s[0]) then
      var t := SkipSpaces(s[1..]);
      assert s[1..][|s| - 1 - |t|..] == s[|s| - |t|..];
      assert forall k :: 1 <= k < |s| - |t| ==> s[k] == s[1..][k - 1];
      t
    else s
  }

  /** The longest prefix of s made of digits. */
  function LeadingDigits(s: string): (d: string)
    ensures d <= s
    ensures forall k :: 0 <= k < |d| ==> IsDigit(d[k])
    ensures |d| < |s| ==> !IsDigit(s[|d|])
  {
    if s != [] && IsDigit(s[0]) then [s[0]] + LeadingDigits(s[1..]) else []
  }

  /** The decimal value of a string of digits. */
  function Value(d: string): (v: nat)
    requires forall k :: 0 <= k < |d| ==> IsDigit(d[k])
  {
    if d == [] then 0
    else
      assert IsDigit(d[|d| - 1]);
      10 * Value(d[..|d| - 1]) + (d[|d| - 1] as int - '0' as int)
  }

  /** atoi, without overflow: integers here are unbounded. */
  function Atoi(s: string): (v: int)
  {
    var t := SkipSpaces(s);
    if t != [] && t[0] == '-' then -(Value(LeadingDigits(t[1..])) as int)
    else if t != [] && t[0] == '+' then Value(LeadingDigits(t[1..]))
    else Value(LeadingDigits(t))
  }

  /** The decimal numeral of n without leading zeros. */
  function Numeral(n: nat): (s: string)
    ensures s != [] && IsDigit(s[0])
    ensures forall k :: 0 <= k < |s| ==> IsDigit(s[k])
  {
    if n < 10 then [('0' as int + n) as char]
    else Numeral(n / 10) + [('0' as int + n % 10) as char]
  }

  lemma {:induction false} ValueOfNumeral(n: nat)
    ensures Value(Numeral(n)) == n
  {
    if n >= 10 {
      ValueOfNumeral(n / 10);
      var s := Numeral(n);
      assert s[..|s| - 1] == Numeral(n / 10);
    }
  }

  /** The digits read from a numeral are the numeral itself when a non-digit (or nothing) follows. */
  lemma {:induction false} LeadingDigitsOfNumeral(digits: string, rest: string)
    requires forall k :: 0 <= k < |digits| ==> IsDigit(digits[k])
    requires rest == [] || !IsDigit(rest[0])
    ensures LeadingDigits(digits + rest) == digits
  {
    if digits != [] {
      assert (digits + rest)[1..] == digits[1..] + rest;
      LeadingDigitsOfNumeral(digits[1..], rest);
    } else {
      assert digits + rest == rest;
    }
  }

  /**
   * atoi reads back the numeral of every natural number, also when the
   * numeral is followed by text that does not start with a digit.
   */
  lemma AtoiOfNumeral(n: nat, rest: string)
    requires rest == [] || !IsDigit(rest[0])
    ensures Atoi(Numeral(n) + rest) == n
  {
    var s := Numeral(n) + rest;
    assert !IsSpace(s[0]) && s[0] != '-' && s[0] != '+';
    assert SkipSpaces(s) == s;
    LeadingDigitsOfNumeral(Numeral(n), rest);
    ValueOfNumeral(n);
  }

  /** atoi of a negated numeral is the negative number. */
  lemma AtoiOfNegative(n: nat)
    ensures Atoi("-" + Numeral(n)) == -(n as int)
  {
    var d := Numeral(n);
    var s := ['-'] + d;
    assert "-" + d == s;
    assert !IsSpace(s[0]);
    assert SkipSpaces(s) == s;
    assert s[1..] == d + [];
    LeadingDigitsOfNumeral(d, []);
    ValueOfNumeral(n);
    assert Value(LeadingDigits(s[1..])) == n;
  }

  /**
   * strchr(host, ':') followed by `*p = 0`: the host name is the text before
   * the first ':', and the port text is what follows it, if there is a ':'.
   */
  function SplitAtColon(s: string): (r: (string, Option<string>))
    ensures ':' !in r.0
    ensures r.1.None? <==> ':' !in s
    ensures r.1.None? ==> r.0 == s
    ensures r.1.Some? ==> s == r.0 + [':'] + r.1.value
  {
    if s == [] then ([], None)
    else if s[0] == ':' then ([], Some(s[1..]))
    else
      var r := SplitAtColon(s[1..]);
      ([s[0]] + r.0, r.1)
  }

  /** No option letter is outside "cvh". */
  predicate AllKnown(opts: seq<char>)
  {
    forall k :: 0 <= k < |opts| ==> IsOption(opts[k])
  }

  /**
   * main: the getopt loop (count -v, decrement the colour flag for every -c,
   * usage and return 0 on -h, count anything else as an error), then the
   * checks on the positional arguments.
   */
  method Decide(opts: seq<char>, args: seq<string>) returns (d: Decision)
    ensures 'h' in opts ==> d == Usage(0)
    ensures 'h' !in opts && !AllKnown(opts) ==> d == Usage(-1)
    ensures 'h' !in opts && AllKnown(opts) && |args| != 2 ==> d == Usage(0)
    ensures 'h' !in opts && AllKnown(opts) && |args| == 2 && Atoi(args[0]) < 1 ==> d == Usage(0)
    ensures ('h' !in opts && AllKnown(opts) && |args| == 2 && Atoi(args[0]) >= 1
             && SplitAtColon(args[1]).1.Some? && Atoi(SplitAtColon(args[1]).1.value) < 1) ==> d == Usage(0)
    ensures d.Start? <==>
              && 'h' !in opts && AllKnown(opts) && |args| == 2 && Atoi(args[0]) >= 1
              && (SplitAtColon(args[1]).1.Some? ==> Atoi(SplitAtColon(args[1]).1.value) >= 1)
    ensures d.Start? ==>
              && d.port == Atoi(args[0])
              && d.host == SplitAtColon(args[1]).0
              && ':' !in d.host
              && d.remotePort == (if ':' in args[1] then Atoi(SplitAtColon(args[1]).1.value) else 80)
              && (d.color <==> Count(opts, 'c') != 1)
  {
    var verbose := 0;
    var color := 1;
    var errflg := 0;
    var k := 0;
    while k < |opts|
      invariant 0 <= k <= |opts|
      invariant 'h' !in opts[..k]
      invariant color == 1 - Count(opts[..k], 'c')
      invariant errflg >= 0 && (errflg == 0 <==> AllKnown(opts[..k]))
    {
      assert opts[..k + 1][..k] == opts[..k];
      if opts[k] == 'v' {
        verbose := verbose + 1;
      } else if opts[k] == 'c' {
        color := color - 1;
      } else if opts[k] == 'h' {
        return Usage(0);
      } else {
        errflg := errflg + 1;
      }
      k := k + 1;
    }
    assert opts[..k] == opts;
    if errflg != 0 {
      return Usage(-1);
    }
    if |args| == 0 || |args| == 1 {
      return Usage(0);
    } else if |args| == 2 {
      var port := Atoi(args[0]);
      if port < 1 {
        return Usage(0);
      }
      var split := SplitAtColon(args[1]);
      var host := split.0;
      var remotePort := 80;
      if split.1.Some? {
        remotePort := Atoi(split.1.value);
        if remotePort < 1 {
          return Usage(0);
        }
      }
      return Start(port, host, remotePort, color != 0);
    } else {
      return Usage(0);
    }
  }
}

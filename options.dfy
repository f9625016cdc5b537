/**
 * Command-line parsing: `parse_port`, shared by both programs, which reads
 * a port number with the C library's `strtoul`, and the reflector's
 * `stamp_getopt`, the small option parser the Windows build substitutes
 * for getopt(3). Its
 * state lives in the globals `stamp_optind`, `stamp_optarg` and
 * `stamp_optopt`, modelled as the fields of a `GetOpt` object.
 *
 * A C string is a `string` read up to its first NUL; reading at or past
 * its end gives NUL, as reading the terminator does.
 */
module Options {
  import opened Wire

  // ---------------------------------------------------------------------------
  // C strings
  // ---------------------------------------------------------------------------

  /** The character at index `i` of a C string, NUL from its end on. */
  function At(s: string, i: nat): char
  {
    if i < |s| then s[i] else '\0'
  }

  /** strlen: the index of the first NUL, or the whole length when there is none. */
  function StrLen(s: string): (n: nat)
    ensures n <= |s| && (n < |s| ==> s[n] == '\0')
    ensures forall i :: 0 <= i < n ==> s[i] != '\0'
    decreases |s|
  {
    if |s| == 0 || s[0] == '\0' then 0 else 1 + StrLen(s[1..])
  }

  /** The characters a `char *` designates. */
  function CStr(s: string): (c: string)
    ensures |c| == StrLen(s) && c == s[..StrLen(s)]
  {
    s[..StrLen(s)]
  }

  /** isspace in the C locale: space, tab, newline, vertical tab, form feed, carriage return. */
  predicate IsSpace(c: char)
  {
    c == ' ' || '\t' <= c <= '\r'
  }

  predicate IsDigit(c: char)
  {
    '0' <= c <= '9'
  }

  predicate AllSpaces(s: string)
  {
    forall i :: 0 <= i < |s| ==> IsSpace(s[i])
  }

  predicate AllDigits(s: string)
  {
    forall i :: 0 <= i < |s| ==> IsDigit(s[i])
  }

  /** The first index from `i` on whose character is not white space. */
  function SkipSpaces(s: string, i: nat): (j: nat)
    requires i <= |s|
    ensures i <= j <= |s| && AllSpaces(s[i..j]) && !IsSpace(At(s, j))
    decreases |s| - i
  {
    if i < |s| && IsSpace(s[i]) then SkipSpaces(s, i + 1) else i
  }

  /** The end of the run of decimal digits starting at `i`. */
  function DigitsEnd(s: string, i: nat): (j: nat)
    requires i <= |s|
    ensures i <= j <= |s| && AllDigits(s[i..j]) && !IsDigit(At(s, j))
    decreases |s| - i
  {
    if i < |s| && IsDigit(s[i]) then DigitsEnd(s, i + 1) else i
  }

  /** Past the optional sign at `i`. */
  function SignEnd(s: string, i: nat): (j: nat)
    requires i <= |s|
    ensures j <= |s| && (j == i || (j == i + 1 && (s[i] == '+' || s[i] == '-')))
  {
    if At(s, i) == '-' || At(s, i) == '+' then i + 1 else i
  }

  /** The number a string of decimal digits denotes. */
  function DecimalValue(ds: string): nat
    requires AllDigits(ds)
  {
    if |ds| == 0 then 0
    else DecimalValue(ds[..|ds| - 1]) * 10 + (ds[|ds| - 1] as int - '0' as int)
  }

  // ---------------------------------------------------------------------------
  // strtoul(arg, &end, 10) with a 64-bit unsigned long
  // ---------------------------------------------------------------------------

  const ULONG_MAX: nat := 0xFFFF_FFFF_FFFF_FFFF

  /** What strtoul returns: the value, the index `end` points at, and whether errno became ERANGE. */
  datatype Conversion = Conversion(value: u64, end: nat, erange: bool)

  /**
   * strtoul in base 10 as the C standard defines it: leading white space,
   * an optional sign, then the longest run of digits. Without digits it
   * converts nothing and `end` is the start of the string. A value above
   * ULONG_MAX gives ULONG_MAX and ERANGE; otherwise a minus sign negates
   * the value in unsigned arithmetic.
   */
  function Strtoul(s: string): (r: Conversion)
    ensures r.end <= |s|
  {
    var i := SkipSpaces(s, 0);
    var neg := At(s, i) == '-';
    var j := SignEnd(s, i);
    var k := DigitsEnd(s, j);
    if k == j then Conversion(0, 0, false)
    else
      var v: int := DecimalValue(s[j..k]);
      if v > ULONG_MAX then Conversion(ULONG_MAX, k, true)
      else Conversion(if neg then Wrap64(-v) else v, k, false)
  }

  // ---------------------------------------------------------------------------
  // parse_port
  // ---------------------------------------------------------------------------

  /** The return code of parse_port and the value `*port` holds afterwards. */
  datatype PortParse = PortParse(rc: int, port: u16)

  /**
   * parse_port(arg, port), with `port` the value `*port` held before: an
   * empty string, an ERANGE conversion, characters left after the number,
   * and a value of 0 or above 65535 each give -1 and leave `*port` as it
   * was; otherwise 0, and `*port` holds the value.
   */
  function ParsePort(arg: string, port: u16): (r: PortParse)
    ensures r.rc == 0 || r.rc == -1
    ensures r.rc == -1 ==> r.port == port
    ensures r.rc == 0 ==> 1 <= r.port <= 65535
  {
    if At(arg, 0) == '\0' then PortParse(-1, port)
    else
      var c := Strtoul(arg);
      if c.erange || At(arg, c.end) != '\0' || c.value == 0 || c.value > 65535 then PortParse(-1, port)
      else PortParse(0, c.value)
  }

  /** The port a string of white space, a sign and digits stands for once strtoul has negated it. */
  function SignedValue(sign: string, ds: string): int
    requires AllDigits(ds)
  {
    if sign == "-" then TWO_64 - DecimalValue(ds) else DecimalValue(ds)
  }

  /** A string parse_port can accept: white space, at most one sign, at least one digit. */
  predicate NumberShape(sp: string, sign: string, ds: string)
  {
    AllSpaces(sp) && (sign == "" || sign == "+" || sign == "-") && |ds| > 0 && AllDigits(ds)
  }

  /**
   * parse_port on white space, a sign and digits: it succeeds exactly when
   * the number, negated modulo 2^64 after a minus sign, is a port, and then
   * stores that port.
   */
  lemma {:induction false} ParsePortOf(sp: string, sign: string, ds: string, port: u16)
    requires NumberShape(sp, sign, ds)
    ensures var v := DecimalValue(ds);
      ParsePort(sp + sign + ds, port) ==
        if v <= ULONG_MAX && 1 <= SignedValue(sign, ds) <= 65535 then PortParse(0, SignedValue(sign, ds))
        else PortParse(-1, port)
  {
    var s := sp + sign + ds;
    StrtoulOf(sp, sign, ds);
    assert At(s, 0) != '\0' by {
      if |sp| > 0 { assert s[0] == sp[0]; } else if |sign| > 0 { assert s[0] == sign[0]; } else { assert s[0] == ds[0]; }
    }
    var v: int := DecimalValue(ds);
    if v <= ULONG_MAX {
      Negated(v);
    }
  }

  /** Negation in 64-bit unsigned arithmetic: 0 stays 0, any other value v becomes 2^64 - v. */
  lemma {:induction false} Negated(v: int)
    requires 0 <= v <= ULONG_MAX
    ensures Wrap64(-v) == if v == 0 then 0 else TWO_64 - v
  {
    if v > 0 {
      assert -v == -1 * TWO_64 + (TWO_64 - v);
    }
  }

  /** strtoul on white space, a sign and digits converts all of it. */
  lemma {:induction false} StrtoulOf(sp: string, sign: string, ds: string)
    requires NumberShape(sp, sign, ds)
    ensures var v: int := DecimalValue(ds);
      Strtoul(sp + sign + ds) ==
        if v > ULONG_MAX then Conversion(ULONG_MAX, |sp + sign + ds|, true)
        else Conversion(if sign == "-" then Wrap64(-v) else v, |sp + sign + ds|, false)
  {
    var s := sp + sign + ds;
    var i := |sp|;
    assert s[..i] == sp;
    SkipSpacesAt(s, i);
    var j := i + |sign|;
    assert s[j..] == ds;
    DigitsEndAt(s, j);
    assert s[j..|s|] == ds;
  }

  /** Leading white space `s[..i]` followed by a non-space is skipped to `i`. */
  lemma {:induction false} SkipSpacesAt(s: string, i: nat)
    requires i < |s| && AllSpaces(s[..i]) && !IsSpace(s[i])
    ensures SkipSpaces(s, 0) == i
  {
    var k := 0;
    while k < i
      invariant 0 <= k <= i && SkipSpaces(s, k) == SkipSpaces(s, 0)
    {
      assert s[..i][k] == s[k];
      k := k + 1;
    }
  }

  /** A string ending in digits from `j` on has its digit run end at the string's end. */
  lemma {:induction false} DigitsEndAt(s: string, j: nat)
    requires j <= |s| && AllDigits(s[j..])
    ensures DigitsEnd(s, j) == |s|
    decreases |s| - j
  {
    if j < |s| {
      assert s[j..][0] == s[j];
      assert s[j + 1..] == s[j..][1..];
      DigitsEndAt(s, j + 1);
    }
  }

  /** Plain decimal digits parse to the port they denote, and only a port's digits parse. */
  lemma {:induction false} ParsePortDecimal(ds: string, port: u16)
    requires |ds| > 0 && AllDigits(ds)
    ensures ParsePort(ds, port) ==
      if 1 <= DecimalValue(ds) <= 65535 then PortParse(0, DecimalValue(ds)) else PortParse(-1, port)
  {
    ParsePortOf("", "", ds, port);
    assert "" + "" + ds == ds;
  }

  /** Every string parse_port accepts is white space, a sign and digits whose value is the port. */
  lemma {:induction false} ParsePortAccepted(arg: string, port: u16) returns (sp: string, sign: string, ds: string)
    requires ParsePort(arg, port).rc == 0
    ensures NumberShape(sp, sign, ds) && CStr(arg) == sp + sign + ds
    ensures ParsePort(arg, port).port == SignedValue(sign, ds)
    ensures sign == "-" <==> At(arg, SkipSpaces(arg, 0)) == '-'
  {
    var i, j, k := AcceptedParts(arg, port);
    sp, sign, ds := arg[..i], arg[i..j], arg[j..k];
    assert arg[..k] == sp + sign + ds;
    assert NumberShape(sp, sign, ds) by {
      assert arg[..i] == arg[0..i];
      assert sign == "" || sign == [arg[i]];
    }
    NoNul(sp, sign, ds);
    StrLenAt(arg, k);
    if sign == "-" {
      Negated(DecimalValue(ds));
    }
  }

  /**
   * Where the parts of an accepted string lie: white space up to `i`, a
   * sign up to `j`, digits up to `k`, and then the terminator.
   */
  lemma {:induction false} AcceptedParts(arg: string, port: u16) returns (i: nat, j: nat, k: nat)
    requires ParsePort(arg, port).rc == 0
    ensures i == SkipSpaces(arg, 0) && j == SignEnd(arg, i) && j < k == DigitsEnd(arg, j) && At(arg, k) == '\0'
    ensures DecimalValue(arg[j..k]) <= ULONG_MAX
    ensures ParsePort(arg, port).port
      == if At(arg, i) == '-' then Wrap64(-(DecimalValue(arg[j..k]) as int)) else DecimalValue(arg[j..k])
  {
    i := SkipSpaces(arg, 0);
    j := SignEnd(arg, i);
    k := DigitsEnd(arg, j);
  }

  /** White space, signs and digits hold no NUL. */
  lemma {:induction false} NoNul(sp: string, sign: string, ds: string)
    requires NumberShape(sp, sign, ds)
    ensures forall i :: 0 <= i < |sp + sign + ds| ==> (sp + sign + ds)[i] != '\0'
  {
    forall i | 0 <= i < |sp + sign + ds|
      ensures (sp + sign + ds)[i] != '\0'
    {
      if i < |sp| {
        assert (sp + sign + ds)[i] == sp[i];
      } else if i < |sp| + |sign| {
        assert (sp + sign + ds)[i] == sign[i - |sp|];
      } else {
        assert (sp + sign + ds)[i] == ds[i - |sp| - |sign|];
      }
    }
  }

  /** A C string whose character at `k` is NUL and before it none is NUL is `k` long. */
  lemma {:induction false} StrLenAt(s: string, k: nat)
    requires k <= |s| && At(s, k) == '\0' && forall i :: 0 <= i < k ==> s[i] != '\0'
    ensures StrLen(s) == k
    decreases k
  {
    if k > 0 {
      assert forall i :: 0 <= i < k - 1 ==> s[1..][i] == s[i + 1];
      StrLenAt(s[1..], k - 1);
    }
  }

  // ---------------------------------------------------------------------------
  // A negative number that wraps into the port range
  // ---------------------------------------------------------------------------

  /** strtoul negates a value after a minus sign, so 2^64 - 81 written with a minus sign reads as 81. */
  lemma {:induction false} NegativeInputWrapsToPort(port: u16)
    ensures ParsePort("-18446744073709551535", port) == PortParse(0, 81)
  {
    var ds := "18446744073709551535";
    WrappingDigits();
    ParsePortOf("", "-", ds, port);
    assert "" + "-" + ds == "-18446744073709551535";
  }

  /** The value of the digits of 2^64 - 81. */
  lemma {:induction false} WrappingDigits()
    ensures AllDigits("18446744073709551535") && DecimalValue("18446744073709551535") == TWO_64 - 81
  {
    LeadingDigits();
    var ds := "1844674407";
    var v := 1844674407;
    DecimalSnoc(ds, '3');
    ds, v := ds + ['3'], v * 10 + 3;
    assert DecimalValue(ds) == v;
    DecimalSnoc(ds, '7');
    ds, v := ds + ['7'], v * 10 + 7;
    assert DecimalValue(ds) == v;
    DecimalSnoc(ds, '0');
    ds, v := ds + ['0'], v * 10 + 0;
    assert DecimalValue(ds) == v;
    DecimalSnoc(ds, '9');
    ds, v := ds + ['9'], v * 10 + 9;
    assert DecimalValue(ds) == v;
    DecimalSnoc(ds, '5');
    ds, v := ds + ['5'], v * 10 + 5;
    assert DecimalValue(ds) == v;
    DecimalSnoc(ds, '5');
    ds, v := ds + ['5'], v * 10 + 5;
    assert DecimalValue(ds) == v;
    DecimalSnoc(ds, '1');
    ds, v := ds + ['1'], v * 10 + 1;
    assert DecimalValue(ds) == v;
    DecimalSnoc(ds, '5');
    ds, v := ds + ['5'], v * 10 + 5;
    assert DecimalValue(ds) == v;
    DecimalSnoc(ds, '3');
    ds, v := ds + ['3'], v * 10 + 3;
    assert DecimalValue(ds) == v;
    DecimalSnoc(ds, '5');
    ds, v := ds + ['5'], v * 10 + 5;
    assert DecimalValue(ds) == v;
    assert ds == "18446744073709551535" && v == 18446744073709551535;
  }

  /** The value of the first ten of those digits. */
  lemma {:induction false} LeadingDigits()
    ensures AllDigits("1844674407") && DecimalValue("1844674407") == 1844674407
  {
    var ds := "";
    var v := 0;
    DecimalSnoc(ds, '1');
    ds, v := ds + ['1'], v * 10 + 1;
    assert DecimalValue(ds) == v;
    DecimalSnoc(ds, '8');
    ds, v := ds + ['8'], v * 10 + 8;
    assert DecimalValue(ds) == v;
    DecimalSnoc(ds, '4');
    ds, v := ds + ['4'], v * 10 + 4;
    assert DecimalValue(ds) == v;
    DecimalSnoc(ds, '4');
    ds, v := ds + ['4'], v * 10 + 4;
    assert DecimalValue(ds) == v;
    DecimalSnoc(ds, '6');
    ds, v := ds + ['6'], v * 10 + 6;
    assert DecimalValue(ds) == v;
    DecimalSnoc(ds, '7');
    ds, v := ds + ['7'], v * 10 + 7;
    assert DecimalValue(ds) == v;
    DecimalSnoc(ds, '4');
    ds, v := ds + ['4'], v * 10 + 4;
    assert DecimalValue(ds) == v;
    DecimalSnoc(ds, '4');
    ds, v := ds + ['4'], v * 10 + 4;
    assert DecimalValue(ds) == v;
    DecimalSnoc(ds, '0');
    ds, v := ds + ['0'], v * 10 + 0;
    assert DecimalValue(ds) == v;
    DecimalSnoc(ds, '7');
    ds, v := ds + ['7'], v * 10 + 7;
    assert DecimalValue(ds) == v;
    assert ds == "1844674407" && v == 1844674407;
  }

  /** Appending a digit multiplies the value by ten and adds the digit. */
  lemma {:induction false} DecimalSnoc(ds: string, c: char)
    requires AllDigits(ds) && IsDigit(c)
    ensures AllDigits(ds + [c]) && DecimalValue(ds + [c]) == DecimalValue(ds) * 10 + (c as int - '0' as int)
  {
    assert (ds + [c])[..|ds|] == ds;
  }

  /**
   * parse_port with negative numbers refused: a minus sign after the
   * leading white space is rejected before strtoul can negate the value.
   */
  function ParsePortUnsigned(arg: string, port: u16): (r: PortParse)
    ensures r.rc == 0 || r.rc == -1
    ensures r.rc == -1 ==> r.port == port
    ensures r.rc == 0 ==> r == ParsePort(arg, port)
  {
    if At(arg, SkipSpaces(arg, 0)) == '-' then PortParse(-1, port) else ParsePort(arg, port)
  }

  /** Every string ParsePortUnsigned accepts is an unsigned number, and the port is the number written. */
  lemma {:induction false} ParsePortUnsignedAccepted(arg: string, port: u16) returns (sp: string, sign: string, ds: string)
    requires ParsePortUnsigned(arg, port).rc == 0
    ensures NumberShape(sp, sign, ds) && sign != "-" && CStr(arg) == sp + sign + ds
    ensures ParsePortUnsigned(arg, port).port == DecimalValue(ds)
  {
    sp, sign, ds := ParsePortAccepted(arg, port);
  }

  /** ParsePortUnsigned refuses every negative number, whatever it wraps to. */
  lemma {:induction false} ParsePortUnsignedRefusesMinus(sp: string, ds: string, port: u16)
    requires NumberShape(sp, "-", ds)
    ensures ParsePortUnsigned(sp + "-" + ds, port) == PortParse(-1, port)
  {
    var s := sp + "-" + ds;
    assert s[..|sp|] == sp;
    SkipSpacesAt(s, |sp|);
  }

  // ---------------------------------------------------------------------------
  // stamp_getopt
  // ---------------------------------------------------------------------------

  /** The parser's globals: stamp_optind, stamp_optarg (None for NULL) and stamp_optopt. */
  datatype OptState = OptState(optind: nat, optarg: Option<string>, optopt: char)

  /** The globals' initial values. */
  const INITIAL_OPT_STATE := OptState(1, None, '\0')

  /** What one call returns and the globals it leaves. */
  datatype OptStep = OptStep(ret: int, state: OptState)

  /** strchr(s, c) for a character other than NUL: the index of its first occurrence, if any. */
  function Find(s: string, c: char): (r: Option<nat>)
    requires c != '\0'
    ensures r.Some? ==> r.value < StrLen(s) && s[r.value] == c && forall i :: 0 <= i < r.value ==> s[i] != c
    ensures r.None? ==> forall i :: 0 <= i < StrLen(s) ==> s[i] != c
    decreases |s|
  {
    if |s| == 0 || s[0] == '\0' then None
    else if s[0] == c then Some(0)
    else
      var r := Find(s[1..], c);
      if r.None? then None
      else
        assert forall i :: 1 <= i < r.value + 1 ==> s[i] == s[1..][i - 1];
        Some(r.value + 1)
  }

  /**
   * One call of stamp_getopt(argc, argv, optstring), with argc = |argv|:
   * -1 at the end of the arguments, at an argument that is not an option,
   * and at "--", which is consumed; '?' for a letter not in `optstring`,
   * for a letter that takes an argument when none follows, and for a letter
   * that takes none when more characters follow it; otherwise the letter,
   * with its argument (the rest of the word, else the next word) in optarg.
   * A call moves optind forward by at most two words and not past the end,
   * and by at least one when it returns something other than -1, so the
   * reflector's option loop ends.
   */
  function GetOptStep(st: OptState, argv: seq<string>, optstring: string): (r: OptStep)
    ensures st.optind <= r.state.optind <= st.optind + 2
    ensures st.optind < |argv| ==> r.state.optind <= |argv|
    ensures r.ret != -1 ==> r.state.optind > st.optind
  {
    if st.optind >= |argv| then OptStep(-1, st)
    else
      var arg := argv[st.optind];
      var len := StrLen(arg);
      if len < 2 || arg[0] != '-' then OptStep(-1, st)
      else if len == 2 && arg[1] == '-' then OptStep(-1, st.(optind := st.optind + 1))
      else
        var opt := arg[1];
        var p := Find(optstring, opt);
        var ind := st.optind + 1;
        if p.None? then OptStep('?' as int, st.(optind := ind, optopt := opt))
        else if At(optstring, p.value + 1) == ':' then
          if len >= 3 && arg[2] != '\0' then OptStep(opt as int, st.(optind := ind, optarg := Some(arg[2..len])))
          else if ind < |argv| then OptStep(opt as int, st.(optind := ind + 1, optarg := Some(CStr(argv[ind]))))
          else OptStep('?' as int, st.(optind := ind, optopt := opt))
        else if len >= 3 && arg[2] != '\0' then OptStep('?' as int, st.(optind := ind, optopt := opt))
        else OptStep(opt as int, st.(optind := ind))
  }

  /** The word at optind starts options: at least two characters, the first '-', and not "--". */
  predicate OptionWord(st: OptState, argv: seq<string>)
  {
    st.optind < |argv| && StrLen(argv[st.optind]) >= 2 && argv[st.optind][0] == '-'
    && !(StrLen(argv[st.optind]) == 2 && argv[st.optind][1] == '-')
  }

  /**
   * The parser stops (-1) exactly when no option word is at optind. It
   * consumes "--" and leaves every other global alone; anywhere else it
   * changes nothing at all.
   */
  lemma {:induction false} GetOptEnd(st: OptState, argv: seq<string>, optstring: string)
    ensures GetOptStep(st, argv, optstring).ret == -1 <==> !OptionWord(st, argv)
    ensures (st.optind >= |argv| || StrLen(argv[st.optind]) < 2 || argv[st.optind][0] != '-')
      ==> GetOptStep(st, argv, optstring) == OptStep(-1, st)
    ensures st.optind < |argv| && CStr(argv[st.optind]) == "--"
      ==> GetOptStep(st, argv, optstring) == OptStep(-1, st.(optind := st.optind + 1))
  {
    if st.optind < |argv| {
      var arg := argv[st.optind];
      if CStr(arg) == "--" {
        assert arg[..StrLen(arg)][0] == '-' && arg[..StrLen(arg)][1] == '-';
      }
      if OptionWord(st, argv) {
        var opt := arg[1];
        assert opt != '\0' && opt as int != -1;
      }
    }
  }

  /**
   * A letter that is not in `optstring` gives '?' with the letter in optopt,
   * and the word is consumed; optarg keeps its value.
   */
  lemma {:induction false} GetOptUnknown(st: OptState, argv: seq<string>, optstring: string)
    requires OptionWord(st, argv)
    requires forall i :: 0 <= i < StrLen(optstring) ==> optstring[i] != argv[st.optind][1]
    ensures GetOptStep(st, argv, optstring) == OptStep('?' as int, st.(optind := st.optind + 1, optopt := argv[st.optind][1]))
  {
    var opt := argv[st.optind][1];
    assert opt != '\0';
  }

  /** A letter that takes no argument, with more characters after it, gives '?' with the letter in optopt. */
  lemma {:induction false} GetOptTrailing(st: OptState, argv: seq<string>, optstring: string, k: nat)
    requires OptionWord(st, argv) && StrLen(argv[st.optind]) >= 3
    requires k < StrLen(optstring) && optstring[k] == argv[st.optind][1] && At(optstring, k + 1) != ':'
    requires forall i :: 0 <= i < k ==> optstring[i] != argv[st.optind][1]
    ensures GetOptStep(st, argv, optstring) == OptStep('?' as int, st.(optind := st.optind + 1, optopt := argv[st.optind][1]))
  {
    var opt := argv[st.optind][1];
    assert opt != '\0';
    assert Find(optstring, opt) == Some(k);
  }

  /**
   * What a call returns other than -1 and '?' is the letter after the '-'
   * of the word at optind, and that letter occurs in `optstring`.
   */
  lemma {:induction false} GetOptLetter(st: OptState, argv: seq<string>, optstring: string)
    requires GetOptStep(st, argv, optstring).ret != -1 && GetOptStep(st, argv, optstring).ret != '?' as int
    ensures OptionWord(st, argv)
    ensures GetOptStep(st, argv, optstring).ret == argv[st.optind][1] as int
    ensures exists i :: 0 <= i < StrLen(optstring) && optstring[i] == argv[st.optind][1]
  {
    var opt := argv[st.optind][1];
    assert opt != '\0';
    var p := Find(optstring, opt);
    assert optstring[p.value] == opt;
  }

  /**
   * The reflector's options "46d" on `reflector -4 -d 8620`: '4', then 'd',
   * then -1 with optind at the port word, which is parsed next.
   */
  lemma {:induction false} ReflectorCommandLine()
    ensures var argv := ["reflector", "-4", "-d", "8620"];
      var s1 := GetOptStep(INITIAL_OPT_STATE, argv, "46d");
      var s2 := GetOptStep(s1.state, argv, "46d");
      var s3 := GetOptStep(s2.state, argv, "46d");
      s1.ret == '4' as int && s2.ret == 'd' as int && s3.ret == -1 && s3.state.optind == 3
  {
    var argv := ["reflector", "-4", "-d", "8620"];
    assert StrLen(argv[1]) == 2 by { StrLenAt(argv[1], 2); }
    assert StrLen(argv[2]) == 2 by { StrLenAt(argv[2], 2); }
    assert StrLen(argv[3]) == 4 by { StrLenAt(argv[3], 4); }
    assert StrLen("46d") == 3 by { StrLenAt("46d", 3); }
    assert Find("46d", '4') == Some(0);
    assert Find("46d", 'd') == Some(2) by {
      assert "46d"[1..] == "6d" && "6d"[1..] == "d";
    }
  }

  /** The globals stamp_optind, stamp_optarg and stamp_optopt, updated by each call of the parser. */
  class GetOpt {
    var optind: nat
    var optarg: Option<string>
    var optopt: char

    /** The globals as a value. */
    function State(): OptState
      reads this
    {
      OptState(optind, optarg, optopt)
    }

    constructor()
      ensures State() == INITIAL_OPT_STATE
    {
      optind := 1;
      optarg := None;
      optopt := '\0';
    }

    /** stamp_getopt: one call, as GetOptStep describes it. */
    method Next(argv: seq<string>, optstring: string) returns (r: int)
      modifies this
      ensures r == GetOptStep(old(State()), argv, optstring).ret
      ensures State() == GetOptStep(old(State()), argv, optstring).state
    {
      if optind >= |argv| {
        return -1;
      }
      var arg := argv[optind];
      var len := StrLen(arg);
      if len < 2 || arg[0] != '-' {
        return -1;
      }
      if len == 2 && arg[1] == '-' {
        optind := optind + 1;
        return -1;
      }
      var opt := arg[1];
      var p := Find(optstring, opt);
      if p.None? {
        optopt := opt;
        optind := optind + 1;
        return '?' as int;
      }
      optind := optind + 1;
      if At(optstring, p.value + 1) == ':' {
        if len >= 3 && arg[2] != '\0' {
          optarg := Some(arg[2..len]);
        } else if optind < |argv| {
          optarg := Some(CStr(argv[optind]));
          optind := optind + 1;
        } else {
          optopt := opt;
          return '?' as int;
        }
      } else if len >= 3 && arg[2] != '\0' {
        optopt := opt;
        return '?' as int;
      }
      return opt as int;
    }
  }
}

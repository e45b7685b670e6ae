/** Text helpers of src/core/command.py: the green-colour wrapper used by
    `mark_text`, the device line format, and Python's `str` of a
    non-negative integer. */
module CommandText {
  import opened Outcomes

  const Esc: char := 27 as char

  /** `COLORIZE_TEXT` around its placeholder: ESC "[32m" before, ESC "[0m" after. */
  const ColorOn: string := [Esc] + "[32m"
  const ColorOff: string := [Esc] + "[0m"

  /** `COLORIZE_TEXT.format(s)`: nine characters of colour codes around
      the text, which `Uncolorize` strips off again. */
  function Colorize(s: string): (t: string)
    ensures |t| == |s| + 9
    ensures Uncolorize(t) == Some(s)
  {
    var t := ColorOn + s + ColorOff;
    assert t[..|ColorOn|] == ColorOn;
    assert t[|t| - |ColorOff|..] == ColorOff;
    assert t[|ColorOn|..|t| - |ColorOff|] == s;
    t
  }

  /** Undoes `Colorize`: the text between the two colour codes, if present. */
  function Uncolorize(t: string): Option<string> {
    if |t| >= |ColorOn| + |ColorOff| && t[..|ColorOn|] == ColorOn && t[|t| - |ColorOff|..] == ColorOff
    then Some(t[|ColorOn|..|t| - |ColorOff|])
    else None
  }

  /** `mark_text(*args)` as written: one argument is coloured; none fails
      on `args[0]`; several reach `''.join(*args)`, which passes more than
      one argument to `join` and so raises TypeError. */
  function MarkText(args: seq<string>): (r: Result<string>)
    ensures |args| == 0 ==> r == Raised(IndexError)
    ensures |args| > 1 ==> r == Raised(TypeError)
    ensures |args| == 1 ==> r.Ok? && |r.value| == |args[0]| + 9 && Uncolorize(r.value) == Some(args[0])
  {
    if |args| > 1 then Raised(TypeError)
    else if |args| == 0 then Raised(IndexError)
    else Ok(Colorize(args[0]))
  }

  /** Two arguments already fail, whatever they are. */
  lemma MarkTextPairRaises(a: string, b: string)
    ensures MarkText([a, b]) == Raised(TypeError)
  {
  }

  function Concat(ss: seq<string>): string
    decreases |ss|
  {
    if ss == [] then [] else ss[0] + Concat(ss[1..])
  }

  /** `mark_text` with the evidently intended `''.join(args)`: several
      arguments are concatenated in order. */
  function MarkTextJoined(args: seq<string>): (r: Result<string>)
    ensures |args| == 0 ==> r == Raised(IndexError)
    ensures |args| == 1 ==> r == MarkText(args)
    ensures |args| > 1 ==> r.Ok? && |r.value| == TotalLength(args)
    ensures |args| > 1 ==> forall i {:trigger args[i]} :: 0 <= i < |args| ==>
      TotalLength(args[..i]) + |args[i]| == TotalLength(args[..i + 1]) <= |r.value|
      && r.value[TotalLength(args[..i])..TotalLength(args[..i + 1])] == args[i]
  {
    if |args| > 1 then
      var joined := Concat(args);
      ConcatLength(args);
      forall i {:trigger args[i]} | 0 <= i < |args|
        ensures TotalLength(args[..i]) + |args[i]| == TotalLength(args[..i + 1]) <= |joined|
          && joined[TotalLength(args[..i])..TotalLength(args[..i + 1])] == args[i]
      {
        ConcatSlice(args, i);
      }
      Ok(joined)
    else MarkText(args)
  }

  function TotalLength(ss: seq<string>): nat
    decreases |ss|
  {
    if ss == [] then 0 else |ss[0]| + TotalLength(ss[1..])
  }

  lemma {:induction false} ConcatLength(ss: seq<string>)
    ensures |Concat(ss)| == TotalLength(ss)
    decreases |ss|
  {
    if ss != [] {
      ConcatLength(ss[1..]);
    }
  }

  /** Concatenation distributes over appending lists of strings. */
  lemma {:induction false} ConcatSplit(a: seq<string>, b: seq<string>)
    ensures Concat(a + b) == Concat(a) + Concat(b)
    decreases |a|
  {
    if a == [] {
      assert a + b == b;
    } else {
      assert (a + b)[0] == a[0] && (a + b)[1..] == a[1..] + b;
      ConcatSplit(a[1..], b);
    }
  }

  /** Argument `i` of a concatenation sits between the total lengths of
      the arguments before it and up to it. */
  lemma ConcatSlice(ss: seq<string>, i: nat)
    requires i < |ss|
    ensures TotalLength(ss[..i]) + |ss[i]| == TotalLength(ss[..i + 1]) <= |Concat(ss)|
    ensures Concat(ss)[TotalLength(ss[..i])..TotalLength(ss[..i + 1])] == ss[i]
  {
    var before, after := ss[..i], ss[i + 1..];
    assert ss == before + [ss[i]] + after;
    assert ss[..i + 1] == before + [ss[i]];
    assert Concat([ss[i]]) == ss[i] + Concat([]);
    ConcatSplit(before + [ss[i]], after);
    ConcatSplit(before, [ss[i]]);
    ConcatLength(before);
    ConcatLength(ss[..i + 1]);
    ConcatLength(ss);
    var c := Concat(before) + ss[i] + Concat(after);
    assert Concat(ss) == c;
    assert c[|Concat(before)|..|Concat(before)| + |ss[i]|] == ss[i];
  }

  predicate IsDigit(c: char) {
    '0' <= c <= '9'
  }

  function DigitChar(d: nat): (c: char)
    requires d < 10
    ensures IsDigit(c)
  {
    ('0' as int + d) as char
  }

  /** Python's `str(n)` for `n >= 0`: decimal digits, most significant first,
      no leading zeros. */
  function Decimal(n: nat): (s: string)
    ensures |s| >= 1
    ensures forall i :: 0 <= i < |s| ==> IsDigit(s[i])
    ensures |s| > 1 ==> s[0] != '0'
    decreases n
  {
    if n < 10 then [DigitChar(n)] else Decimal(n / 10) + [DigitChar(n % 10)]
  }

  /** The value of a run of decimal digits. */
  function DigitsValue(s: string): nat
    requires forall i :: 0 <= i < |s| ==> IsDigit(s[i])
    decreases |s|
  {
    if s == [] then 0 else 10 * DigitsValue(s[..|s| - 1]) + DigitValue(s[|s| - 1])
  }

  function DigitValue(c: char): nat
    requires IsDigit(c)
  {
    c as int - '0' as int
  }

  /** Reads back a decimal number; anything but a non-empty run of digits
      is refused. */
  function ParseDecimal(s: string): Option<nat> {
    if s != [] && forall i :: 0 <= i < |s| ==> IsDigit(s[i]) then Some(DigitsValue(s)) else None
  }

  lemma {:induction false} DecimalRoundTrip(n: nat)
    ensures ParseDecimal(Decimal(n)) == Some(n)
    decreases n
  {
    var s := Decimal(n);
    if n >= 10 {
      DecimalRoundTrip(n / 10);
      assert s[..|s| - 1] == Decimal(n / 10);
      assert DigitValue(s[|s| - 1]) == n % 10;
    } else {
      assert s[..|s| - 1] == [];
      assert DigitValue(s[|s| - 1]) == n;
      assert DigitsValue(s) == 10 * DigitsValue([]) + n;
    }
  }

  /** `DEVICE_TEXT.format(i, name)`: "[i] name" and a newline. */
  function DeviceText(i: nat, name: string): string {
    "[" + Decimal(i) + "] " + name + "\n"
  }

  /** A device line determines both the index and the name, whatever the
      name holds. */
  lemma DeviceTextRoundTrip(i: nat, name: string)
    ensures ParseDeviceLine(DeviceText(i, name)) == Some((i, name))
  {
    DeviceLineOf(Decimal(i), name);
    DecimalRoundTrip(i);
  }

  /** A device line ends in its only newline when the name has none. */
  lemma DeviceTextOneLine(i: nat, name: string)
    ensures var line := DeviceText(i, name);
      line[|line| - 1] == '\n' && ('\n' !in name ==> '\n' !in line[..|line| - 1])
  {
    var d := Decimal(i);
    DeviceLineHead(d, name);
    var line := DeviceText(i, name);
    assert line[..|line| - 1] == "[" + d + "] " + name;
  }

  /** The position of the first `c` in `s`. */
  function IndexOf(s: string, c: char): (r: Option<nat>)
    ensures r.Some? ==> r.value < |s| && s[r.value] == c && c !in s[..r.value]
    ensures r.None? ==> c !in s
    decreases |s|
  {
    if s == [] then None
    else if s[0] == c then Some(0)
    else match IndexOf(s[1..], c)
      case None => None
      case Some(j) => assert s[..j + 1] == [s[0]] + s[1..][..j]; Some(j + 1)
  }

  lemma IndexOfAfter(s: string, a: string, c: char)
    requires |a| < |s| && s[..|a|] == a && s[|a|] == c && c !in a
    ensures IndexOf(s, c) == Some(|a|)
  {
  }

  /** Reads a device line back into its index and name. */
  function ParseDeviceLine(line: string): Option<(nat, string)> {
    if |line| == 0 || line[0] != '[' || line[|line| - 1] != '\n' then None
    else match IndexOf(line, ']')
      case None => None
      case Some(j) =>
        if j + 2 <= |line| - 1 && line[j + 1] == ' ' then
          match ParseDecimal(line[1..j])
          case None => None
          case Some(n) => Some((n, line[j + 2..|line| - 1]))
        else None
  }

  /** A line "[digits] name" parses back into the digits' value and the
      name, even when the name holds `]`. */
  lemma DeviceLineOf(d: string, name: string)
    requires d != [] && forall k :: 0 <= k < |d| ==> IsDigit(d[k])
    ensures ParseDeviceLine("[" + d + "] " + name + "\n") == Some((DigitsValue(d), name))
  {
    DeviceLinePieces(d, name);
    DeviceLineParts("[" + d + "] " + name + "\n", |d| + 1, DigitsValue(d), name);
  }

  /** The pieces of "[digits] name": the first `]` closes the digits and
      is followed by a space, and the name runs up to the final newline. */
  lemma DeviceLinePieces(d: string, name: string)
    requires d != [] && forall k :: 0 <= k < |d| ==> IsDigit(d[k])
    ensures var line := "[" + d + "] " + name + "\n";
      && |d| + 3 < |line| && line[0] == '[' && line[|line| - 1] == '\n'
      && IndexOf(line, ']') == Some(|d| + 1) && line[|d| + 2] == ' '
      && ParseDecimal(line[1..|d| + 1]) == Some(DigitsValue(d))
      && line[|d| + 3..|line| - 1] == name
  {
    var a := "[" + d;
    var tail := "] " + name + "\n";
    var line := a + tail;
    assert line == "[" + d + "] " + name + "\n";
    assert line[..|a|] == a;
    assert line[|a|..] == tail;
    assert tail[0] == ']' && tail[1] == ' ' && tail[|tail| - 1] == '\n';
    assert tail[2..|tail| - 1] == name;
    assert line[1..|a|] == d by {
      assert a[1..] == d;
    }
    DigitsHaveNoDelimiter(d);
    IndexOfAfter(line, a, ']');
    assert ParseDecimal(d) == Some(DigitsValue(d));
  }

  /** `ParseDeviceLine` accepts a line exactly through its pieces: the
      opening `[`, the first `]` followed by a space, the digits between
      them and the name up to the final newline. */
  lemma DeviceLineParts(line: string, j: nat, n: nat, name: string)
    requires j + 2 < |line| && line[0] == '[' && line[|line| - 1] == '\n'
    requires IndexOf(line, ']') == Some(j) && line[j + 1] == ' '
    requires ParseDecimal(line[1..j]) == Some(n)
    requires line[j + 2..|line| - 1] == name
    ensures ParseDeviceLine(line) == Some((n, name))
  {
  }

  /** Digits and the fixed characters of a device line add no newline. */
  lemma DeviceLineHead(d: string, name: string)
    requires forall k :: 0 <= k < |d| ==> IsDigit(d[k])
    ensures '\n' !in name ==> '\n' !in "[" + d + "] " + name
  {
    var a := "[" + d;
    DigitsHaveNoDelimiter(d);
    var head := a + "] " + name;
    forall k | 0 <= k < |head| && '\n' !in name ensures head[k] != '\n' {
      if k < |a| {
        assert head[k] == a[k];
      } else if k >= |a| + 2 {
        assert head[k] == name[k - |a| - 2];
      }
    }
    assert "[" + d + "] " + name == head;
  }

  lemma DigitsHaveNoDelimiter(d: string)
    requires forall k :: 0 <= k < |d| ==> IsDigit(d[k])
    ensures ']' !in "[" + d && '\n' !in "[" + d
  {
    var a := "[" + d;
    forall k | 0 <= k < |a| ensures a[k] != ']' && a[k] != '\n' {
      if k > 0 { assert a[k] == d[k - 1]; }
    }
  }
}

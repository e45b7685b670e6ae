/** The device sub-command of src/devices/command.py: the `--list` output,
    the lookup of a device by a typed index, and the prompt that reads it.
    The enumerated devices are passed in as a snapshot. */
module DeviceCommand {
  import opened Outcomes
  import opened CommandText
  import UniqueDict

  /** What `__list(prefix)` writes for the devices named `names`, numbered
      from `from` in enumeration order: nothing for no devices, and, while
      neither the prefix nor any name holds a newline, one line per device. */
  function ListingFrom(prefix: string, names: seq<string>, from: nat): (out: string)
    ensures out == [] <==> names == []
    ensures NoNewline(prefix) && (forall i :: 0 <= i < |names| ==> NoNewline(names[i])) ==>
      Count(out, '\n') == |names|
    decreases |names|
  {
    if names == [] then []
    else
      var rest := ListingFrom(prefix, names[1..], from + 1);
      LineNewlines(prefix, from, names[0], rest);
      prefix + DeviceText(from, names[0]) + rest
  }

  /** `__list(prefix)`: devices are numbered from 0, and while no name
      holds a newline the output reads back into exactly the names. */
  function Listing(prefix: string, names: seq<string>): (out: string)
    ensures out == [] <==> names == []
    ensures (forall i :: 0 <= i < |names| ==> NoNewline(names[i])) ==>
      ParseListingFrom(prefix, out, 0) == Some(names)
  {
    if forall i :: 0 <= i < |names| ==> NoNewline(names[i]) then
      ListingRoundTrip(prefix, names, 0);
      ListingFrom(prefix, names, 0)
    else
      ListingFrom(prefix, names, 0)
  }

  /** Reads a listing back into device names, checking that every line
      carries the prefix and the next consecutive index. */
  function ParseListingFrom(prefix: string, out: string, from: nat): Option<seq<string>>
    decreases |out|
  {
    if out == [] then Some([])
    else if |out| < |prefix| || out[..|prefix|] != prefix then None
    else
      var body := out[|prefix|..];
      match IndexOf(body, '\n')
      case None => None
      case Some(j) =>
        match ParseDeviceLine(body[..j + 1])
        case None => None
        case Some(line) =>
          if line.0 != from then None
          else match ParseListingFrom(prefix, body[j + 1..], from + 1)
            case None => None
            case Some(rest) => Some([line.1] + rest)
  }

  predicate NoNewline(s: string) {
    '\n' !in s
  }

  /** Each device adds its line at the end, numbered by its position. */
  lemma {:induction false} ListingAppend(prefix: string, names: seq<string>, name: string, from: nat)
    ensures ListingFrom(prefix, names + [name], from)
         == ListingFrom(prefix, names, from) + (prefix + DeviceText(from + |names|, name))
    decreases |names|
  {
    var all := names + [name];
    var t := prefix + DeviceText(from + |names|, name);
    if names == [] {
      assert all == [name] && all[1..] == [];
      assert ListingFrom(prefix, all, from) == t + [];
    } else {
      assert all[0] == names[0] && all[1..] == names[1..] + [name];
      var h := prefix + DeviceText(from, names[0]);
      var rest := ListingFrom(prefix, names[1..], from + 1);
      ListingAppend(prefix, names[1..], name, from + 1);
      assert from + 1 + |names[1..]| == from + |names|;
      assert ListingFrom(prefix, all[1..], from + 1) == rest + t;
      assert ListingFrom(prefix, all, from) == h + (rest + t);
      assert ListingFrom(prefix, names, from) == h + rest;
    }
  }

  /** Parsing a listing consumes its first line and continues after it. */
  lemma ParseListingStep(prefix: string, from: nat, name: string, rest: string)
    requires NoNewline(name)
    ensures ParseListingFrom(prefix, prefix + DeviceText(from, name) + rest, from)
         == match ParseListingFrom(prefix, rest, from + 1)
            case None => None
            case Some(names) => Some([name] + names)
  {
    var line := DeviceText(from, name);
    var out := prefix + line + rest;
    assert out[..|prefix|] == prefix;
    var body := out[|prefix|..];
    assert body == line + rest;
    DeviceTextOneLine(from, name);
    DeviceTextRoundTrip(from, name);
    var head := line[..|line| - 1];
    assert body[..|head|] == head;
    IndexOfAfter(body, head, '\n');
    assert body[..|head| + 1] == line;
    assert body[|head| + 1..] == rest;
  }

  /** As long as no device name contains a newline, the listing is
      unambiguous: one line per device, each carrying the prefix and the
      next consecutive index, and the names read back in order. */
  lemma {:induction false} ListingRoundTrip(prefix: string, names: seq<string>, from: nat)
    requires forall i :: 0 <= i < |names| ==> NoNewline(names[i])
    ensures ParseListingFrom(prefix, ListingFrom(prefix, names, from), from) == Some(names)
    decreases |names|
  {
    if names != [] {
      var rest := ListingFrom(prefix, names[1..], from + 1);
      assert ListingFrom(prefix, names, from) == prefix + DeviceText(from, names[0]) + rest;
      ParseListingStep(prefix, from, names[0], rest);
      ListingRoundTrip(prefix, names[1..], from + 1);
      assert [names[0]] + names[1..] == names;
    }
  }

  function Count(s: string, c: char): nat
    decreases |s|
  {
    if s == [] then 0 else (if s[0] == c then 1 else 0) + Count(s[1..], c)
  }

  lemma {:induction false} CountConcat(a: string, b: string, c: char)
    ensures Count(a + b, c) == Count(a, c) + Count(b, c)
    decreases |a|
  {
    if a != [] {
      assert (a + b)[0] == a[0];
      assert (a + b)[1..] == a[1..] + b;
      CountConcat(a[1..], b, c);
    } else {
      assert a + b == b;
    }
  }

  lemma {:induction false} CountAbsent(s: string, c: char)
    requires c !in s
    ensures Count(s, c) == 0
    decreases |s|
  {
    if s != [] {
      assert s == [s[0]] + s[1..];
      CountAbsent(s[1..], c);
    }
  }

  /** A device line adds exactly one newline to what follows it, when
      neither the prefix nor the name holds one. */
  lemma LineNewlines(prefix: string, i: nat, name: string, rest: string)
    ensures NoNewline(prefix) && NoNewline(name) ==>
      Count(prefix + DeviceText(i, name) + rest, '\n') == 1 + Count(rest, '\n')
  {
    var line := DeviceText(i, name);
    DeviceTextOneLine(i, name);
    var head := line[..|line| - 1];
    assert line == head + "\n";
    CountConcat(head, "\n", '\n');
    assert Count("\n", '\n') == 1 + Count([], '\n');
    CountConcat(prefix, line, '\n');
    CountConcat(prefix + line, rest, '\n');
    if NoNewline(prefix) && NoNewline(name) {
      CountAbsent(prefix, '\n');
      CountAbsent(head, '\n');
    }
  }

  /** `__device(index)`: Python list indexing, where a negative index counts
      from the end and an out-of-range index is swallowed as `None`. */
  function DeviceAt<T>(devices: seq<T>, index: int): (r: Option<T>)
    ensures r.Some? <==> -|devices| <= index < |devices|
    ensures 0 <= index < |devices| ==> r == Some(devices[index])
    ensures -|devices| <= index < 0 ==> r == Some(devices[|devices| + index])
  {
    var i := if index < 0 then index + |devices| else index;
    if 0 <= i < |devices| then Some(devices[i]) else None
  }

  /** Every device is reached by exactly two indexes, its position and its
      position counted from the end. */
  lemma DeviceIndexes<T>(devices: seq<T>, k: nat, index: int)
    requires k < |devices|
    ensures DeviceAt(devices, k - |devices|) == DeviceAt(devices, k) == Some(devices[k])
    ensures UniqueDict.Distinct(devices) && DeviceAt(devices, index) == Some(devices[k]) ==>
      index == k || index == k - |devices|
  {
  }

  /** `__select_device`: `parsed` is the prompt's answer after `int()`, or
      `None` when it is not an integer; then nothing is looked up. */
  function SelectDevice<T>(parsed: Option<int>, devices: seq<T>): (r: Option<T>)
    ensures parsed.None? ==> r.None?
    ensures r.Some? <==> parsed.Some? && -|devices| <= parsed.value < |devices|
    ensures r.Some? ==> r.value in devices
    ensures parsed.Some? ==> r == DeviceAt(devices, parsed.value)
  {
    match parsed
    case None => None
    case Some(i) => DeviceAt(devices, i)
  }

  /** `__list` writes device `k`'s line right after the lines of the
      devices before it; that line reads back as index `k`, and typing `k`
      at the prompt selects device `k`. */
  lemma ListedIndexSelects<T>(prefix: string, devices: seq<T>, names: seq<string>, k: nat)
    requires |names| == |devices| && k < |devices|
    ensures var line := DeviceText(k, names[k]);
      && Listing(prefix, names[..k + 1]) == Listing(prefix, names[..k]) + (prefix + line)
      && ParseDeviceLine(line) == Some((k, names[k]))
      && SelectDevice(Some(k), devices) == Some(devices[k])
  {
    ListingAppend(prefix, names[..k], names[k], 0);
    DeviceTextRoundTrip(k, names[k]);
    assert names[..k] + [names[k]] == names[..k + 1];
  }
}

/** `Config` (src/devices/config.py): the list of control names a device is
    configured for, the name-to-event mapping, and the device that answered
    first. */
module DeviceConfig {
  import opened Outcomes
  import opened UniqueDict

  /** The buttons of a Super Nintendo pad, in their configuration order. */
  const SNES: seq<string> :=
    ["up", "down", "left", "right", "select", "start",
     "y", "x", "b", "a", "l", "r"]

  /** `mapping` is `_mapping`, which stays `None` until something assigns
      it; `names` is the whitelist `_names`; `device` is the configured
      device, `None` while unset. */
  datatype Config<D, E> = Config(mapping: Option<Dict<string, E>>, names: seq<string>, device: Option<D>)

  predicate Valid<D, E(==)>(c: Config<D, E>) {
    c.mapping.Some? ==> WellFormed(c.mapping.value) && Injective(c.mapping.value)
  }

  /** The SNES pad has twelve distinct buttons, D-pad first. */
  lemma SnesButtons()
    ensures |SNES| == 12 && Distinct(SNES)
    ensures SNES[..4] == ["up", "down", "left", "right"]
  {
  }

  /** `Config.__init__`: SNES names by default, no mapping yet. */
  function NewConfig<D, E(==)>(names: seq<string> := SNES, device: Option<D> := None): (c: Config<D, E>)
    ensures c.mapping.None?
    ensures c.names == names && c.device == device
    ensures Valid(c)
  {
    Config(None, names, device)
  }

  /** `Config.__getitem__`: looks the key up in `_mapping` without consulting
      the whitelist; subscripting the unset mapping is a TypeError. */
  function GetItem<D, E>(c: Config<D, E>, key: string): (r: Result<E>)
    ensures c.mapping.None? ==> r == Raised(TypeError)
    ensures c.mapping.Some? ==> (r == Raised(KeyError) <==> key !in Keys(c.mapping.value))
    ensures r.Ok? ==> c.mapping.Some? && (key, r.value) in c.mapping.value
    ensures c.mapping.Some? && key in Keys(c.mapping.value) ==> r.Ok?
  {
    match c.mapping
    case None => Raised(TypeError)
    case Some(m) =>
      GetDefinedIffKey(m, key);
      match Get(m, key)
      case None => Raised(KeyError)
      case Some(v) => Ok(v)
  }

  /** `Config.__setitem__`: a key outside the whitelist is a KeyError; a
      whitelisted key is assigned through the unique-value mapping, which
      fails with TypeError while it is unset. A failure writes nothing. */
  function SetItem<D, E(==)>(c: Config<D, E>, key: string, value: E): (r: Mutation<Config<D, E>>)
    requires Valid(c)
    ensures key !in c.names ==> r.raised == Some(KeyError)
    ensures key in c.names && c.mapping.None? ==> r.raised == Some(TypeError)
    ensures key in c.names && c.mapping.Some? && value in Values(c.mapping.value) ==>
      r.raised == Some(ValueError)
    ensures r.raised.Some? ==> r.state == c
    ensures r.raised.None? <==> key in c.names && c.mapping.Some? && value !in Values(c.mapping.value)
    ensures r.raised.None? ==> GetItem(r.state, key) == Ok(value)
    ensures r.raised.None? ==> forall k :: k != key ==> GetItem(r.state, k) == GetItem(c, k)
    ensures Valid(r.state) && r.state.names == c.names && r.state.device == c.device
  {
    if key in c.names then
      match c.mapping
      case None => Mutation(c, Some(TypeError))
      case Some(m) =>
        var s := UniqueDict.SetItem(m, key, value);
        if s.raised.Some? then Mutation(c, s.raised)
        else Mutation(c.(mapping := Some(s.state)), None)
    else
      Mutation(c, Some(KeyError))
  }

  /** A fresh `Config` refuses every access, even to a whitelisted key. */
  lemma FreshConfigRejectsAccess<D, E>(key: string, value: E)
    requires key in SNES
    ensures SetItem(NewConfig<D, E>(), key, value) == Mutation(NewConfig(), Some(TypeError))
    ensures GetItem(NewConfig<D, E>(), key) == Raised(TypeError)
  {
  }

  /** `Config.read`: the first event of `dev`'s stream; `dev` becomes the
      configured device only if none is set yet. An exhausted stream returns
      nothing and changes nothing. */
  function Read<D, E>(c: Config<D, E>, dev: D, stream: seq<E>): (r: (Config<D, E>, Option<E>))
    ensures stream == [] ==> r == (c, None)
    ensures stream != [] ==> r.1 == Some(stream[0])
    ensures r.0.mapping == c.mapping && r.0.names == c.names
    ensures c.device.Some? ==> r.0.device == c.device
    ensures c.device.None? && stream != [] ==> r.0.device == Some(dev)
  {
    if stream == [] then (c, None)
    else if c.device.None? then (c.(device := Some(dev)), Some(stream[0]))
    else (c, Some(stream[0]))
  }

  /** Over a series of reads starting with no device set, the configured
      device is the one of the first read that delivered an event (reads of
      exhausted streams before it change nothing), whatever comes after. */
  lemma {:induction false} FirstReaderWins<D, E>(c: Config<D, E>, devs: seq<D>, streams: seq<seq<E>>, j: nat)
    requires |devs| == |streams| && j < |devs|
    requires c.device.None?
    requires forall i :: 0 <= i < j ==> streams[i] == []
    requires streams[j] != []
    ensures ReadAll(c, devs, streams).device == Some(devs[j])
    decreases j
  {
    if j == 0 {
      ReadAllKeepsDevice(Read(c, devs[0], streams[0]).0, devs[1..], streams[1..]);
    } else {
      assert streams[0] == [];
      FirstReaderWins(c, devs[1..], streams[1..], j - 1);
    }
  }

  /** Sequential reads from several devices, each from its own stream. */
  function ReadAll<D, E>(c: Config<D, E>, devs: seq<D>, streams: seq<seq<E>>): Config<D, E>
    requires |devs| == |streams|
    decreases |devs|
  {
    if devs == [] then c else ReadAll(Read(c, devs[0], streams[0]).0, devs[1..], streams[1..])
  }

  lemma {:induction false} ReadAllKeepsDevice<D, E>(c: Config<D, E>, devs: seq<D>, streams: seq<seq<E>>)
    requires |devs| == |streams|
    requires c.device.Some?
    ensures ReadAll(c, devs, streams).device == c.device
    decreases |devs|
  {
    if devs != [] {
      ReadAllKeepsDevice(Read(c, devs[0], streams[0]).0, devs[1..], streams[1..]);
    }
  }

  /** `Config.set_actions`: pops the names one at a time, in the set's own
      order, and binds each to the next event `device.read()` delivers
      (`events`, consumed from the front). A repeated event makes the
      unique-value mapping raise ValueError mid-way; the names popped and
      events read by then are gone. */
  method SetActions<N(==,!new), E(==)>(attrs: set<N>, events: seq<E>)
    returns (result: Result<Dict<N, E>>, left: set<N>, unread: seq<E>)
    requires |attrs| <= |events|
    ensures left <= attrs
    ensures |unread| <= |events| && unread == events[|events| - |unread|..]
    ensures |events| - |unread| == |attrs| - |left|
    ensures result.Ok? <==> Distinct(events[..|attrs|])
    ensures result.Ok? ==> left == {} && WellFormed(result.value) && Injective(result.value)
    ensures result.Ok? ==> forall k :: k in Keys(result.value) <==> k in attrs
    ensures result.Ok? ==> Values(result.value) == events[..|attrs|]
    ensures result.Raised? ==> result.error == ValueError
    ensures result.Raised? ==>
      var n := |events| - |unread|;
      1 <= n && Distinct(events[..n - 1]) && events[n - 1] in events[..n - 1]
  {
    var mapping: Dict<N, E> := [];
    left := attrs;
    var i := 0;
    while left != {}
      invariant left <= attrs
      invariant i == |attrs| - |left|
      invariant WellFormed(mapping) && Injective(mapping)
      invariant forall k :: k in Keys(mapping) <==> k in attrs && k !in left
      invariant Values(mapping) == events[..i]
      invariant Distinct(events[..i])
      decreases |left|
    {
      var a :| a in left;
      left := left - {a};
      var ev := events[i];
      var s := UniqueDict.SetItem(mapping, a, ev);
      if s.raised.Some? {
        assert events[..i + 1] == events[..i] + [ev];
        assert !Distinct(events[..|attrs|]) by {
          var j :| 0 <= j < i && events[j] == ev;
          assert events[..|attrs|][j] == events[..|attrs|][i];
        }
        result := Raised(ValueError);
        unread := events[i + 1..];
        return;
      }
      assert Values(s.state) == Values(mapping) + [ev];
      assert events[..i + 1] == events[..i] + [ev];
      mapping := s.state;
      i := i + 1;
    }
    result := Ok(mapping);
    unread := events[i..];
  }
}

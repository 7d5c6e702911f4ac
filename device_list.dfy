/**
 * `get_audio_devices`: the listing of the devices that
 * `alcGetString(NULL, ALC_DEVICE_SPECIFIER)` returns.
 *
 * The driver hands back a pointer to a list of names, each terminated by
 * a NUL, with an empty name (a second NUL) after the last one. The buffer
 * is modelled as the characters that may be read; reading any index at or
 * beyond its end gives `ReadPastEnd` with that index. A null pointer is
 * `None`. Each `char` of the buffer stands for one `ALCchar` byte: `strlen`
 * and the cursors count bytes, so a name with multi-byte UTF-8 characters
 * is as long as its byte count.
 */
module DeviceList {
  import opened Basics
  import opened DeviceNames

  /** What the listing produces: the collected names, or the first read outside the buffer. */
  datatype Listing = Devices(names: seq<string>) | ReadPastEnd(at: nat)

  /** The names collected before `rest` are put in front of its names. */
  function Prefixed(front: seq<string>, rest: Listing): (r: Listing)
    ensures rest.Devices? <==> r.Devices?
    ensures r.Devices? ==> r.names == front + rest.names
    ensures rest.ReadPastEnd? ==> r == rest
  {
    match rest
    case Devices(ns) => Devices(front + ns)
    case ReadPastEnd(_) => rest
  }

  lemma PrefixedAppend(a: seq<string>, b: seq<string>, rest: Listing)
    ensures Prefixed(a, Prefixed(b, rest)) == Prefixed(a + b, rest)
  {
    if rest.Devices? {
      assert a + (b + rest.names) == (a + b) + rest.names;
    }
  }

  /** `strlen` from index `i`: the index of the first NUL at or after `i`, if any. */
  function NulFrom(buf: seq<char>, i: nat): (r: Option<nat>)
    ensures r.Some? ==> i <= r.value < |buf| && buf[r.value] == NUL
    ensures r.Some? ==> forall j :: i <= j < r.value ==> buf[j] != NUL
    ensures r.None? ==> forall j :: i <= j < |buf| ==> buf[j] != NUL
    decreases |buf| - i
  {
    if i >= |buf| then None
    else if buf[i] == NUL then Some(i)
    else NulFrom(buf, i + 1)
  }

  /**
   * The loop of `get_audio_devices` from cursors `device` and `next`, as
   * written: it goes on only while both point at a non-NUL character, then
   * takes the name at `device` and moves `device` by `len + 1` and `next`
   * by `len + 2`.
   */
  function Scan(buf: seq<char>, device: nat, next: nat): Listing
    decreases |buf| - device
  {
    if device >= |buf| then ReadPastEnd(device)
    else if buf[device] == NUL then Devices([])
    else if next >= |buf| then ReadPastEnd(next)
    else if buf[next] == NUL then Devices([])
    else match NulFrom(buf, device)
      case None => ReadPastEnd(|buf|)
      case Some(end) =>
        Prefixed([buf[device..end]], Scan(buf, end + 1, next + (end - device) + 2))
  }

  /** `get_audio_devices` on the string the driver returned. */
  function Parse(devices: Option<seq<char>>): (r: Listing)
    ensures devices.None? ==> r == Devices([])
    ensures r.ReadPastEnd? ==> devices.Some? && r.at >= |devices.value|
  {
    match devices
    case None => Devices([])
    case Some(buf) =>
      ScanFailsOutside(buf, 0, 1);
      Scan(buf, 0, 1)
  }

  /** The scan fails only by reading at or beyond the end of the buffer. */
  lemma {:induction false} ScanFailsOutside(buf: seq<char>, device: nat, next: nat)
    ensures Scan(buf, device, next).ReadPastEnd? ==> Scan(buf, device, next).at >= |buf|
    decreases |buf| - device
  {
    if device < |buf| && buf[device] != NUL && next < |buf| && buf[next] != NUL && NulFrom(buf, device).Some? {
      var end := NulFrom(buf, device).value;
      ScanFailsOutside(buf, end + 1, next + (end - device) + 2);
    }
  }

  /** `get_audio_devices`, with the driver's string passed in. */
  method GetAudioDevices(devices: Option<seq<char>>) returns (r: Listing)
    ensures r == Parse(devices)
  {
    if devices.None? {
      return Devices([]);
    }
    var buf := devices.value;
    var device, next := 0, 1;
    var len := 0;
    var dev: seq<string> := [];
    while true
      invariant device <= |buf|
      invariant next == device + |dev| + 1
      invariant Parse(devices) == Prefixed(dev, Scan(buf, device, next))
      decreases |buf| - device
    {
      ScanLoopExits(buf, dev, device, next);
      if device == |buf| {
        return ReadPastEnd(device);
      }
      if buf[device] == NUL {
        break;
      }
      if next >= |buf| {
        return ReadPastEnd(next);
      }
      if buf[next] == NUL {
        break;
      }
      var end := NulFrom(buf, device);
      if end.None? {
        return ReadPastEnd(|buf|);
      }
      len := end.value - device;
      ScanLoopStep(buf, dev, device, next, len);
      dev := dev + [buf[device..device + len]];
      device := device + (len + 1);
      next := next + (len + 2);
    }
    return Devices(dev);
  }

  /** Where the loop leaves: the outcome once a cursor reads a NUL or outside the buffer. */
  lemma ScanLoopExits(buf: seq<char>, dev: seq<string>, device: nat, next: nat)
    ensures device >= |buf| ==> Prefixed(dev, Scan(buf, device, next)) == ReadPastEnd(device)
    ensures device < |buf| && buf[device] == NUL ==> Prefixed(dev, Scan(buf, device, next)) == Devices(dev)
    ensures device < |buf| && buf[device] != NUL && next >= |buf| ==>
      Prefixed(dev, Scan(buf, device, next)) == ReadPastEnd(next)
    ensures device < |buf| && buf[device] != NUL && next < |buf| && buf[next] == NUL ==>
      Prefixed(dev, Scan(buf, device, next)) == Devices(dev)
    ensures device < |buf| && buf[device] != NUL && next < |buf| && buf[next] != NUL && NulFrom(buf, device).None? ==>
      Prefixed(dev, Scan(buf, device, next)) == ReadPastEnd(|buf|)
  {
    assert dev + [] == dev;
  }

  /** One pass of the loop moves the name at `device` from the scan to the names collected. */
  lemma ScanLoopStep(buf: seq<char>, dev: seq<string>, device: nat, next: nat, len: nat)
    requires device < |buf| && buf[device] != NUL && next < |buf| && buf[next] != NUL
    requires NulFrom(buf, device) == Some(device + len)
    ensures Prefixed(dev, Scan(buf, device, next))
         == Prefixed(dev + [buf[device..device + len]], Scan(buf, device + len + 1, next + len + 2))
  {
    PrefixedAppend(dev, [buf[device..device + len]], Scan(buf, device + len + 1, next + len + 2));
  }

  // ---------------------------------------------------------------------
  // What the parser returns

  /** The first NUL at or after `i` is the one at `j` when none comes between. */
  lemma NulFromAt(buf: seq<char>, i: nat, j: nat)
    requires i <= j < |buf| && buf[j] == NUL
    requires forall k :: i <= k < j ==> buf[k] != NUL
    ensures NulFrom(buf, i) == Some(j)
  {
    var r := NulFrom(buf, i);
    assert r.Some?;
  }

  /**
   * Every name the scan accepts is non-empty and NUL-free, and the names,
   * each with its NUL, are exactly the characters of the buffer from
   * `device` on: the names come out in buffer order.
   */
  lemma {:induction false} ScanYieldsBufferNames(buf: seq<char>, device: nat, next: nat)
    requires Scan(buf, device, next).Devices?
    ensures ValidNames(Scan(buf, device, next).names)
    ensures device + |Join(Scan(buf, device, next).names)| <= |buf|
    ensures buf[device..device + |Join(Scan(buf, device, next).names)|] == Join(Scan(buf, device, next).names)
    decreases |buf| - device
  {
    if device < |buf| && buf[device] != NUL && next < |buf| && buf[next] != NUL {
      var end := NulFrom(buf, device).value;
      var next' := next + (end - device) + 2;
      ScanYieldsBufferNames(buf, end + 1, next');
      NameFromBuffer(buf, device, end, Scan(buf, end + 1, next').names);
    }
  }

  /** A NUL-terminated run of characters at `device`, in front of names that follow it in the buffer. */
  lemma NameFromBuffer(buf: seq<char>, device: nat, end: nat, rest: seq<string>)
    requires device < end < |buf| && buf[end] == NUL
    requires forall j :: device <= j < end ==> buf[j] != NUL
    requires ValidNames(rest)
    requires end + 1 + |Join(rest)| <= |buf|
    requires buf[end + 1..end + 1 + |Join(rest)|] == Join(rest)
    ensures ValidNames([buf[device..end]] + rest)
    ensures device + |Join([buf[device..end]] + rest)| <= |buf|
    ensures buf[device..device + |Join([buf[device..end]] + rest)|] == Join([buf[device..end]] + rest)
  {
    var name := buf[device..end];
    var ns := [name] + rest;
    assert ns[0] == name && ns[1..] == rest;
    assert Join(ns) == name + [NUL] + Join(rest);
    assert forall k :: 0 <= k < |name| ==> name[k] == buf[device + k];
    assert ValidName(name);
    assert forall i :: 1 <= i < |ns| ==> ns[i] == rest[i - 1];
    var e := end + 1 + |Join(rest)|;
    assert buf[device..e] == buf[device..end] + [buf[end]] + buf[end + 1..e];
  }

  /**
   * The listing of a driver string: empty for a null pointer; otherwise
   * non-empty NUL-free names that, each with its NUL, open the buffer.
   */
  lemma ParsedNamesOpenBuffer(devices: Option<seq<char>>)
    requires Parse(devices).Devices?
    ensures ValidNames(Parse(devices).names)
    ensures devices.None? ==> Parse(devices).names == []
    ensures devices.Some? ==> Join(Parse(devices).names) <= devices.value
  {
    if devices.Some? {
      ScanYieldsBufferNames(devices.value, 0, 1);
    }
  }

  // ---------------------------------------------------------------------
  // The scan over a well-formed list

  /** One pass of the loop over a name at `i` when `next` points at a non-NUL character. */
  lemma ScanTakesName(buf: seq<char>, i: nat, name: string, next: nat, i': nat, next': nat)
    requires ValidName(name) && i + |name| < |buf|
    requires buf[i..i + |name|] == name && buf[i + |name|] == NUL
    requires next < |buf| && buf[next] != NUL
    requires i' == i + |name| + 1 && next' == next + |name| + 2
    ensures Scan(buf, i, next) == Prefixed([name], Scan(buf, i', next'))
  {
    assert buf[i] == name[0];
    forall j | i <= j < i + |name| ensures buf[j] != NUL {
      assert buf[j] == name[j - i];
      assert name[j - i] in name;
    }
    NulFromAt(buf, i, i + |name|);
  }

  /** `r` lists a prefix of `names`, or reads past the end of the buffer. */
  predicate ListsPrefixOf(r: Listing, names: seq<string>) {
    r.ReadPastEnd? || (|r.names| <= |names| && r.names == names[..|r.names|])
  }

  /** Taking the first name in front of the listing of the rest keeps it a prefix. */
  lemma PrefixedListsPrefix(names: seq<string>, rest: Listing)
    requires names != [] && ListsPrefixOf(rest, names[1..])
    ensures ListsPrefixOf(Prefixed([names[0]], rest), names)
  {
    if rest.Devices? {
      assert [names[0]] + rest.names == names[..1 + |rest.names|];
    }
  }

  /** Where the loop stops on a well-formed list without taking the name at `i`. */
  lemma ScanListEnds(buf: seq<char>, i: nat, names: seq<string>, k: nat)
    requires ListAt(buf, i, names)
    requires names == [] || i + k + 1 >= |buf| || buf[i + k + 1] == NUL
    ensures ListsPrefixOf(Scan(buf, i, i + k + 1), names)
  {
    if names != [] {
      assert buf[i] == buf[i..i + |names[0]|][0];
    }
  }

  /** On a well-formed list the scan yields a prefix of the names, unless it reads past the end. */
  lemma {:induction false} ScanListIsPrefix(buf: seq<char>, i: nat, names: seq<string>, k: nat)
    requires ListAt(buf, i, names)
    ensures ListsPrefixOf(Scan(buf, i, i + k + 1), names)
    decreases |names|
  {
    if names == [] || i + k + 1 >= |buf| || buf[i + k + 1] == NUL {
      ScanListEnds(buf, i, names, k);
    } else {
      var i' := i + |names[0]| + 1;
      ScanTakesName(buf, i, names[0], i + k + 1, i', i' + (k + 1) + 1);
      ScanListIsPrefix(buf, i', names[1..], k + 1);
      PrefixedListsPrefix(names, Scan(buf, i', i' + (k + 1) + 1));
    }
  }

  /**
   * One pass of the loop over a well-formed list whose first name is long
   * enough that `next`, `k + 1` characters past `device`, still points
   * into it: the name is taken, and `next` falls one more character behind.
   */
  lemma ScanListStep(buf: seq<char>, i: nat, names: seq<string>, k: nat, rest: Listing)
    requires ListAt(buf, i, names) && names != []
    requires |names[0]| > k + 1
    requires Scan(buf, i + |names[0]| + 1, i + |names[0]| + 1 + (k + 1) + 1) == rest
    ensures Scan(buf, i, i + k + 1) == Prefixed([names[0]], rest)
  {
    var n0 := names[0];
    var i' := i + |n0| + 1;
    assert buf[i + k + 1] == buf[i..i + |n0|][k + 1];
    ScanTakesName(buf, i, n0, i + k + 1, i', i' + (k + 1) + 1);
  }

  /**
   * The loop ends at the final NUL, where `next` reaches the NUL after the name
   * at `device`, or where it reaches the final NUL after a last name of k characters.
   */
  lemma ScanListHalts(buf: seq<char>, i: nat, names: seq<string>, k: nat)
    requires ListAt(buf, i, names)
    requires names != [] ==> |names[0]| == k + 1 || (|names| == 1 && |names[0]| == k)
    ensures Scan(buf, i, i + k + 1) == Devices([])
  {
    if names != [] {
      assert buf[i] == buf[i..i + |names[0]|][0];
    }
  }

  /**
   * The quirk of the lagging cursor: when the first `m` names outrun it
   * and name `m` has exactly `k + m + 1` characters, or is the last name
   * and has `k + m`, or there is no name `m`, the loop stops after `m` names.
   */
  lemma {:induction false} ScanListStops(buf: seq<char>, i: nat, names: seq<string>, k: nat, m: nat)
    requires ListAt(buf, i, names) && m <= |names|
    requires Outruns(names, k, m)
    requires m < |names| ==> |names[m]| == k + m + 1 || (m == |names| - 1 && |names[m]| == k + m)
    ensures Scan(buf, i, i + k + 1) == Devices(names[..m])
    decreases m
  {
    if m == 0 {
      ScanListHalts(buf, i, names, k);
    } else {
      var i' := i + |names[0]| + 1;
      assert m - 1 < |names[1..]| ==> names[1..][m - 1] == names[m];
      ScanListStops(buf, i', names[1..], k + 1, m - 1);
      ScanListTakesFirst(buf, i, names, k, m);
    }
  }

  /** The inductive step of `ScanListStops`: the first name goes in front of the next m - 1. */
  lemma ScanListTakesFirst(buf: seq<char>, i: nat, names: seq<string>, k: nat, m: nat)
    requires ListAt(buf, i, names) && 0 < m <= |names|
    requires |names[0]| > k + 1
    requires Scan(buf, i + |names[0]| + 1, i + |names[0]| + 1 + (k + 1) + 1) == Devices(names[1..][..m - 1])
    ensures Scan(buf, i, i + k + 1) == Devices(names[..m])
  {
    ScanListStep(buf, i, names, k, Devices(names[1..][..m - 1]));
    assert [names[0]] + names[1..][..m - 1] == names[..m];
  }

  /** With one name left and `next` past its NUL and the final one, the next read is out of bounds. */
  lemma ScanListRunsOff(buf: seq<char>, i: nat, name: string, k: nat)
    requires ListAt(buf, i, [name])
    requires |name| + 2 <= k + 1 && |buf| == i + |name| + 2
    ensures Scan(buf, i, i + k + 1) == ReadPastEnd(i + k + 1)
  {
    assert buf[i] == buf[i..i + |name|][0];
  }

  /**
   * A lagging cursor can run off the buffer: when all names but the last
   * outrun it and the last is at most `k + |names| - 2` characters long,
   * the loop reads `next` where it has fallen to, past the final NUL.
   */
  lemma {:induction false} ScanListOverruns(buf: seq<char>, i: nat, names: seq<string>, k: nat)
    requires ListAt(buf, i, names) && names != []
    requires Outruns(names, k, |names| - 1)
    requires |names[|names| - 1]| + 2 <= k + |names|
    requires |buf| == i + Width(names) + 1
    ensures Scan(buf, i, i + k + 1)
         == ReadPastEnd(i + Width(names) + k + |names| - |names[|names| - 1]| - 1)
    decreases |names|
  {
    var n0 := names[0];
    assert Width(names) == |n0| + 1 + Width(names[1..]);
    if |names| == 1 {
      assert names == [n0] && names[1..] == [];
      ScanListRunsOff(buf, i, n0, k);
    } else {
      var i' := i + |n0| + 1;
      assert names[1..][|names[1..]| - 1] == names[|names| - 1];
      ScanListOverruns(buf, i', names[1..], k + 1);
      ScanListStep(buf, i, names, k, ReadPastEnd(i + Width(names) + k + |names| - |names[|names| - 1]| - 1));
    }
  }

  /** A list whose `k`-th name (from 0) has more than `k + 1` characters is listed in full. */
  lemma ParseListsLongNames(names: seq<string>)
    requires ValidNames(names)
    requires forall i :: 0 <= i < |names| ==> |names[i]| > i + 1
    ensures Parse(Some(Encode(names))) == Devices(names)
  {
    EncodedListAt(names);
    OutrunsByPosition(names, 0, |names|);
    ScanListStops(Encode(names), 0, names, 0, |names|);
  }

  /** A name whose length is its position plus one ends the listing before it. */
  lemma ParseStopsAtName(names: seq<string>, m: nat)
    requires ValidNames(names) && m < |names|
    requires forall i :: 0 <= i < m ==> |names[i]| > i + 1
    requires |names[m]| == m + 1
    ensures Parse(Some(Encode(names))) == Devices(names[..m])
  {
    EncodedListAt(names);
    OutrunsByPosition(names, 0, m);
    ScanListStops(Encode(names), 0, names, 0, m);
  }

  /**
   * A last name one character shorter than the number of devices, after names
   * that outrun the cursor, is dropped: `next` lands on the final NUL.
   */
  lemma ParseDropsLastAtTerminator(names: seq<string>)
    requires ValidNames(names) && names != []
    requires forall i :: 0 <= i < |names| - 1 ==> |names[i]| > i + 1
    requires |names[|names| - 1]| == |names| - 1
    ensures Parse(Some(Encode(names))) == Devices(names[..|names| - 1])
  {
    EncodedListAt(names);
    OutrunsByPosition(names, 0, |names| - 1);
    ScanListStops(Encode(names), 0, names, 0, |names| - 1);
  }

  /** Two devices "abc" and "d": only "abc" is listed. */
  lemma ParseDropsLastDevice()
    ensures Parse(Some(Encode(["abc", "d"]))) == Devices(["abc"])
  {
    var names := ["abc", "d"];
    assert ValidName(names[0]) && ValidName(names[1]);
    ParseDropsLastAtTerminator(names);
    assert names[..1] == ["abc"];
  }

  /** A one-character first device is never listed, and neither is any after it. */
  lemma OneCharFirstDeviceHidesAll(names: seq<string>)
    requires ValidNames(names) && names != [] && |names[0]| == 1
    ensures Parse(Some(Encode(names))) == Devices([])
  {
    ParseStopsAtName(names, 0);
  }

  /** The listing of a well-formed list is a prefix of it, or a read past its end. */
  lemma ParseEncodedIsPrefix(names: seq<string>)
    requires ValidNames(names)
    ensures ListsPrefixOf(Parse(Some(Encode(names))), names)
  {
    EncodedListAt(names);
    ScanListIsPrefix(Encode(names), 0, names, 0);
  }

  /** A list whose last name is short enough makes the lagging cursor read past the final NUL. */
  lemma ParseOverrunsShortLastName(names: seq<string>)
    requires ValidNames(names) && names != []
    requires forall i :: 0 <= i < |names| - 1 ==> |names[i]| > i + 1
    requires |names[|names| - 1]| + 2 <= |names|
    ensures Parse(Some(Encode(names)))
         == ReadPastEnd(|Encode(names)| + |names| - |names[|names| - 1]| - 2)
    ensures Parse(Some(Encode(names))).at >= |Encode(names)|
  {
    EncodedListAt(names);
    EncodeLength(names);
    OutrunsByPosition(names, 0, |names| - 1);
    ScanListOverruns(Encode(names), 0, names, 0);
  }

  /** Two devices "Mic" and "Bt": only "Mic" is listed. */
  lemma ParseDropsSecondDevice()
    ensures Parse(Some(Encode(["Mic", "Bt"]))) == Devices(["Mic"])
  {
    var names := ["Mic", "Bt"];
    assert ValidName(names[0]) && ValidName(names[1]);
    ParseStopsAtName(names, 1);
    assert names[..1] == ["Mic"];
  }

  /** Devices "ab", "cde", "f": the lagging cursor reads past the final NUL. */
  lemma ParseReadsPastTerminator()
    ensures Parse(Some(Encode(["ab", "cde", "f"]))) == ReadPastEnd(10)
    ensures |Encode(["ab", "cde", "f"])| == 10
  {
    var names := ["ab", "cde", "f"];
    assert ValidName(names[0]) && ValidName(names[1]) && ValidName(names[2]);
    ParseOverrunsShortLastName(names);
  }

  // ---------------------------------------------------------------------
  // The listing loop without the lagging cursor

  /** The listing as intended: names up to the empty one, tested at `device` only. */
  function ScanIntended(buf: seq<char>, device: nat): (r: Listing)
    ensures r.ReadPastEnd? ==> r.at >= |buf|
    decreases |buf| - device
  {
    if device >= |buf| then ReadPastEnd(device)
    else if buf[device] == NUL then Devices([])
    else match NulFrom(buf, device)
      case None => ReadPastEnd(|buf|)
      case Some(end) => Prefixed([buf[device..end]], ScanIntended(buf, end + 1))
  }

  function ParseIntended(devices: Option<seq<char>>): (r: Listing)
    ensures devices.None? ==> r == Devices([])
    ensures r.ReadPastEnd? ==> devices.Some? && r.at >= |devices.value|
  {
    match devices
    case None => Devices([])
    case Some(buf) => ScanIntended(buf, 0)
  }

  /** `get_audio_devices` with the `next` cursor removed. */
  method ListDevices(devices: Option<seq<char>>) returns (r: Listing)
    ensures r == ParseIntended(devices)
  {
    if devices.None? {
      return Devices([]);
    }
    var buf := devices.value;
    var device := 0;
    var dev: seq<string> := [];
    while true
      invariant device <= |buf|
      invariant ParseIntended(devices) == Prefixed(dev, ScanIntended(buf, device))
      decreases |buf| - device
    {
      if device == |buf| {
        return ReadPastEnd(device);
      }
      if buf[device] == NUL {
        break;
      }
      var end := NulFrom(buf, device);
      if end.None? {
        return ReadPastEnd(|buf|);
      }
      dev := dev + [buf[device..end.value]];
      device := end.value + 1;
    }
    return Devices(dev);
  }

  lemma {:induction false} ScanIntendedList(buf: seq<char>, i: nat, names: seq<string>)
    requires ListAt(buf, i, names)
    ensures ScanIntended(buf, i) == Devices(names)
    decreases |names|
  {
    if names != [] {
      var n0 := names[0];
      assert buf[i] == n0[0];
      forall j | i <= j < i + |n0| ensures buf[j] != NUL {
        assert buf[j] == n0[j - i];
        assert n0[j - i] in n0;
      }
      NulFromAt(buf, i, i + |n0|);
      ScanIntendedList(buf, i + |n0| + 1, names[1..]);
      assert [n0] + names[1..] == names;
    }
  }

  /** Without the lagging cursor every well-formed list is listed in full. */
  lemma ParseIntendedRoundTrip(names: seq<string>)
    requires ValidNames(names)
    ensures ParseIntended(Some(Encode(names))) == Devices(names)
  {
    EncodedListAt(names);
    ScanIntendedList(Encode(names), 0, names);
  }
}

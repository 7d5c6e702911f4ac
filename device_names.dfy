/**
 * The format of the device list `alcGetString(NULL, ALC_DEVICE_SPECIFIER)`
 * returns: the device names, each terminated by a NUL, then one more NUL.
 */
module DeviceNames {

  const NUL: char := '\0'

  /** A name as the driver lists it: non-empty and NUL-free. */
  predicate ValidName(s: string) {
    s != [] && NUL !in s
  }

  predicate ValidNames(names: seq<string>) {
    forall i :: 0 <= i < |names| ==> ValidName(names[i])
  }

  /** The names, each followed by its NUL. */
  function Join(names: seq<string>): seq<char> {
    if names == [] then [] else names[0] + [NUL] + Join(names[1..])
  }

  /** A well-formed device list: the joined names and the final empty name. */
  function Encode(names: seq<string>): seq<char> {
    Join(names) + [NUL]
  }

  /** `buf` holds the valid names `names`, each with its NUL, and the final NUL, from index `i` on. */
  predicate ListAt(buf: seq<char>, i: nat, names: seq<string>)
    decreases |names|
  {
    if names == [] then i < |buf| && buf[i] == NUL
    else
      ValidName(names[0])
      && i + |names[0]| < |buf| && buf[i..i + |names[0]|] == names[0] && buf[i + |names[0]|] == NUL
      && ListAt(buf, i + |names[0]| + 1, names[1..])
  }

  /** The characters taken by the names, each with its NUL (the length of `Join`). */
  function Width(names: seq<string>): nat {
    if names == [] then 0 else |names[0]| + 1 + Width(names[1..])
  }

  lemma {:induction false} EncodeListAt(p: seq<char>, names: seq<string>)
    requires ValidNames(names)
    ensures ListAt(p + Encode(names), |p|, names)
    decreases |names|
  {
    var buf := p + Encode(names);
    if names != [] {
      var p' := p + names[0] + [NUL];
      assert buf == p' + Encode(names[1..]);
      assert buf[|p|..|p| + |names[0]|] == names[0];
      assert forall j :: 0 <= j < |names[1..]| ==> names[1..][j] == names[j + 1];
      EncodeListAt(p', names[1..]);
    }
  }

  /** A well-formed list holds its names from index 0 on. */
  lemma EncodedListAt(names: seq<string>)
    requires ValidNames(names)
    ensures ListAt(Encode(names), 0, names)
  {
    EncodeListAt([], names);
    assert [] + Encode(names) == Encode(names);
  }

  /**
   * The first `m` names each reach past the lagging `next` cursor, which
   * starts `k + 1` characters after the first name and falls one character
   * further behind with each name taken.
   */
  predicate Outruns(names: seq<string>, k: nat, m: nat)
    requires m <= |names|
    decreases m
  {
    m == 0 || (|names[0]| > k + 1 && Outruns(names[1..], k + 1, m - 1))
  }

  lemma {:induction false} OutrunsByPosition(names: seq<string>, k: nat, m: nat)
    requires m <= |names|
    requires forall j :: 0 <= j < m ==> |names[j]| > k + j + 1
    ensures Outruns(names, k, m)
    decreases m
  {
    if m > 0 {
      assert |names[0]| > k + 0 + 1;
      forall j | 0 <= j < m - 1
        ensures |names[1..][j]| > (k + 1) + j + 1
      {
        assert names[1..][j] == names[j + 1];
      }
      OutrunsByPosition(names[1..], k + 1, m - 1);
    }
  }

  lemma {:induction false} EncodeLength(names: seq<string>)
    ensures |Encode(names)| == Width(names) + 1
    decreases |names|
  {
    if names != [] {
      EncodeLength(names[1..]);
    }
  }
}

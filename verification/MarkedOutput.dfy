/**
 What a shell printed between two markers, read as its output comes in pieces
 (app/src-tauri/src/daemon_command.rs, between and find).
 */
module MarkedOutput {
  import opened Prelude

  type Bytes = seq<Byte>

  predicate StandsAt(bytes: Bytes, needle: Bytes, at: nat) {
    at + |needle| <= |bytes| && bytes[at..at + |needle|] == needle
  }

  ghost predicate FirstAt(bytes: Bytes, needle: Bytes, at: nat) {
    StandsAt(bytes, needle, at) && forall i: nat :: i < at ==> !StandsAt(bytes, needle, i)
  }

  /** Where `needle` first is in `bytes`. */
  method Find(bytes: Bytes, needle: Bytes) returns (at: Option<nat>)
    requires needle != []
    ensures at.Some? ==> FirstAt(bytes, needle, at.value)
    ensures at.None? ==> forall i: nat :: !StandsAt(bytes, needle, i)
  {
    var i := 0;
    while i + |needle| <= |bytes|
      invariant forall k: nat :: k < i ==> !StandsAt(bytes, needle, k)
    {
      if StandsAt(bytes, needle, i) {
        return Some(i);
      }
      i := i + 1;
    }
    at := None;
  }

  /** `said` stands between the first marker of `bytes` and the next one after it. */
  ghost predicate SaidBetween(bytes: Bytes, marker: Bytes, said: Bytes) {
    exists first: nat :: SaidFrom(bytes, marker, said, first)
  }

  ghost predicate SaidFrom(bytes: Bytes, marker: Bytes, said: Bytes, first: nat) {
    && FirstAt(bytes, marker, first)
    && FirstAt(bytes[first + |marker|..], marker, |said|)
    && bytes[first + |marker|..][..|said|] == said
  }

  /** Where something first is stays as more comes. */
  lemma FirstStays(bytes: Bytes, more: Bytes, needle: Bytes, at: nat)
    requires FirstAt(bytes, needle, at)
    ensures FirstAt(bytes + more, needle, at)
  {
    assert (bytes + more)[at..at + |needle|] == bytes[at..at + |needle|];
    forall i: nat | i < at
      ensures !StandsAt(bytes + more, needle, i)
    {
      assert !StandsAt(bytes, needle, i);
      assert i + |needle| <= |bytes| && (bytes + more)[i..i + |needle|] == bytes[i..i + |needle|];
    }
  }

  /** What is between the markers stays as more comes. */
  lemma SaidStays(bytes: Bytes, more: Bytes, marker: Bytes, said: Bytes)
    requires SaidBetween(bytes, marker, said)
    ensures SaidBetween(bytes + more, marker, said)
  {
    var first: nat :| SaidFrom(bytes, marker, said, first);
    var after := first + |marker|;
    FirstStays(bytes, more, marker, first);
    FirstStays(bytes[after..], more, marker, |said|);
    assert (bytes + more)[after..] == bytes[after..] + more;
    assert (bytes[after..] + more)[..|said|] == bytes[after..][..|said|];
    assert SaidFrom(bytes + more, marker, said, first);
  }

  lemma FirstIsOne(bytes: Bytes, needle: Bytes, a: nat, b: nat)
    requires FirstAt(bytes, needle, a) && FirstAt(bytes, needle, b)
    ensures a == b
  {
  }

  /** Between its markers an output says one thing. */
  lemma SaidIsOne(bytes: Bytes, marker: Bytes, said: Bytes, other: Bytes)
    requires SaidBetween(bytes, marker, said) && SaidBetween(bytes, marker, other)
    ensures said == other
  {
    var a: nat :| SaidFrom(bytes, marker, said, a);
    var b: nat :| SaidFrom(bytes, marker, other, b);
    FirstIsOne(bytes, marker, a, b);
    FirstIsOne(bytes[a + |marker|..], marker, |said|, |other|);
  }

  /**
   What the pieces that came in time say between the markers; nothing where they do not say it. No
   piece is waited for once it is said, and none is read twice.
   */
  method Between(marker: Bytes, printed: seq<Bytes>) returns (said: Option<Bytes>, read: nat)
    requires marker != []
    ensures read <= |printed|
    ensures said.Some? ==> SaidBetween(Flat(printed[..read]), marker, said.value)
    ensures said.Some? ==> forall k :: 0 <= k < read ==> SaysNothing(Flat(printed[..k]), marker)
    ensures said.None? ==> read == |printed| && SaysNothing(Flat(printed), marker)
    ensures said.Some? ==> SaidBetween(Flat(printed), marker, said.value)
  {
    var bytes: Bytes := [];
    read := 0;
    while true
      invariant read <= |printed| && bytes == Flat(printed[..read])
      invariant forall k :: 0 <= k < read ==> SaysNothing(Flat(printed[..k]), marker)
      decreases |printed| - read
    {
      said := SaidIn(bytes, marker);
      if said.Some? {
        FlatAppend(printed[..read], printed[read..]);
        assert printed == printed[..read] + printed[read..];
        SaidStays(bytes, Flat(printed[read..]), marker, said.value);
        return;
      }
      if read == |printed| {
        assert printed[..read] == printed;
        return;
      }
      FlatAppend(printed[..read], [printed[read]]);
      assert printed[..read + 1] == printed[..read] + [printed[read]];
      assert Flat([printed[read]]) == printed[read] + Flat([]);
      bytes := bytes + printed[read];
      read := read + 1;
    }
  }

  ghost predicate SaysNothing(bytes: Bytes, marker: Bytes) {
    forall said: Bytes :: !SaidBetween(bytes, marker, said)
  }

  method SaidIn(bytes: Bytes, marker: Bytes) returns (said: Option<Bytes>)
    requires marker != []
    ensures said.Some? ==> SaidBetween(bytes, marker, said.value)
    ensures said.None? ==> SaysNothing(bytes, marker)
  {
    hide StandsAt;
    said := None;
    var first := Find(bytes, marker);
    if first.Some? {
      var after := first.value + |marker|;
      StandsWithin(bytes, marker, first.value);
      var second := Find(bytes[after..], marker);
      if second.Some? {
        StandsWithin(bytes[after..], marker, second.value);
        said := Some(bytes[after..after + second.value]);
        assert bytes[after..][..second.value] == said.value;
        assert SaidFrom(bytes, marker, said.value, first.value);
        return;
      }
      forall text: Bytes, at: nat
        ensures !SaidFrom(bytes, marker, text, at)
      {
        NoSecond(bytes, bytes[after..], marker, first.value, text, at);
      }
    }
  }

  lemma NoSecond(bytes: Bytes, rest: Bytes, marker: Bytes, first: nat, said: Bytes, at: nat)
    requires FirstAt(bytes, marker, first) && rest == bytes[first + |marker|..]
    requires forall i: nat :: !StandsAt(rest, marker, i)
    ensures !SaidFrom(bytes, marker, said, at)
  {
    if FirstAt(bytes, marker, at) {
      FirstIsOne(bytes, marker, at, first);
    }
  }

  lemma StandsWithin(bytes: Bytes, needle: Bytes, at: nat)
    requires StandsAt(bytes, needle, at)
    ensures at + |needle| <= |bytes|
  {
  }

  /** However an output is cut, the same is read from it. */
  lemma CutsDoNotMatter(
    marker: Bytes, one: seq<Bytes>, other: seq<Bytes>, k: nat, said: Bytes, alike: Bytes)
    requires Flat(one) == Flat(other) && k <= |one|
    requires SaidBetween(Flat(one[..k]), marker, said)
    requires SaidBetween(Flat(other), marker, alike)
    ensures said == alike
  {
    FlatAppend(one[..k], one[k..]);
    assert one == one[..k] + one[k..];
    SaidStays(Flat(one[..k]), Flat(one[k..]), marker, said);
    SaidIsOne(Flat(one), marker, said, alike);
  }
}

/** Virtual device identities: a physical GPU's UUID joined to a replica
    counter by the separator "-_-", and the decoding that keeps the text
    before the first separator (nvidia.go, generateFakeDeviceID and
    extractRealDeviceID). */
module IdentityCodec {
  import opened Common
  import opened Numerals

  const Separator: string := "-_-"

  /** The separator starts at position `i` of `s`. */
  predicate SeparatorAt(s: string, i: int)
  {
    0 <= i && i + 3 <= |s| && s[i] == '-' && s[i + 1] == '_' && s[i + 2] == '-'
  }

  predicate ContainsSeparator(s: string)
  {
    exists i :: 0 <= i < |s| && SeparatorAt(s, i)
  }

  /** The first position at or after `from` where the separator starts, or
      |s| when there is none. */
  function FirstSeparator(s: string, from: nat): (k: nat)
    requires from <= |s|
    ensures from <= k <= |s|
    decreases |s| - from
  {
    if from == |s| || SeparatorAt(s, from) then from else FirstSeparator(s, from + 1)
  }

  lemma {:induction false} FirstSeparatorSpec(s: string, from: nat)
    requires from <= |s|
    ensures var k := FirstSeparator(s, from);
      && (forall i :: from <= i < k ==> !SeparatorAt(s, i))
      && (k < |s| ==> SeparatorAt(s, k))
    decreases |s| - from
  {
    if from < |s| && !SeparatorAt(s, from) {
      FirstSeparatorSpec(s, from + 1);
    }
  }

  /** The virtual ID of replica `fakeCounter` of the device `realID`:
      the real ID, the separator, and the counter printed in decimal. */
  function GenerateFakeDeviceID(realID: string, fakeCounter: nat): string
  {
    realID + Separator + Decimal(fakeCounter)
  }

  /** The real ID of a virtual ID: the first piece of splitting it at the
      separator. */
  function ExtractRealDeviceID(fakeID: string): string
  {
    fakeID[..FirstSeparator(fakeID, 0)]
  }

  /** The real ID is the whole text before the first separator of the
      virtual ID, or the whole ID when it holds none; it holds no separator. */
  lemma ExtractRealDeviceIDSpec(fakeID: string)
    ensures var r := ExtractRealDeviceID(fakeID);
      && |r| <= |fakeID| && r == fakeID[..|r|]
      && (forall i :: 0 <= i < |r| ==> !SeparatorAt(fakeID, i))
      && (|r| < |fakeID| ==> SeparatorAt(fakeID, |r|))
      && !ContainsSeparator(r)
      && (!ContainsSeparator(fakeID) ==> r == fakeID)
  {
    var k := FirstSeparator(fakeID, 0);
    FirstSeparatorSpec(fakeID, 0);
    assert forall i :: SeparatorAt(fakeID[..k], i) ==> SeparatorAt(fakeID, i);
  }

  /** The real IDs the codec can round-trip: no separator inside, and no
      trailing "-_", whose last two characters would join the separator
      appended by the encoder into an earlier separator. */
  predicate ValidRealID(realID: string)
  {
    !ContainsSeparator(realID) && !HasSuffix(realID, "-_")
  }

  /** Decoding an encoded ID gives back the real ID, for every counter,
      exactly when the real ID is valid. */
  lemma RoundTrip(realID: string, fakeCounter: nat)
    ensures ExtractRealDeviceID(GenerateFakeDeviceID(realID, fakeCounter)) == realID
        <==> ValidRealID(realID)
  {
    var s := GenerateFakeDeviceID(realID, fakeCounter);
    var n := |realID|;
    ExtractRealDeviceIDSpec(s);
    FirstSeparatorSpec(s, 0);
    assert s[..n] == realID;
    assert SeparatorAt(s, n);
    if ValidRealID(realID) {
      forall i | 0 <= i < n ensures !SeparatorAt(s, i) {
        if i + 3 <= n {
          assert !SeparatorAt(realID, i);
        } else if i == n - 2 {
          assert realID[n - 2..] == [realID[n - 2], realID[n - 1]];
        }
      }
      assert FirstSeparator(s, 0) == n;
    } else if ContainsSeparator(realID) {
      var i :| 0 <= i < n && SeparatorAt(realID, i);
      assert SeparatorAt(s, i);
    } else {
      assert realID[n - 2..] == "-_";
      assert SeparatorAt(s, n - 2);
    }
  }

  /** The separator alone is not the whole precondition: "GPU-_" holds no
      separator, yet its replica 0 decodes to "GPU". */
  lemma SeparatorFreeIsNotEnough()
    ensures !ContainsSeparator("GPU-_")
    ensures ExtractRealDeviceID(GenerateFakeDeviceID("GPU-_", 0)) == "GPU"
  {
  }

  /** The replica counter is the Atoi-readable text after the real ID and
      the separator, so the encoding loses nothing. */
  lemma CounterRecoverable(realID: string, fakeCounter: nat)
    requires fakeCounter <= MaxInt64
    ensures var s := GenerateFakeDeviceID(realID, fakeCounter);
      |s| == |realID| + 3 + |Decimal(fakeCounter)| && Atoi(s[|realID| + 3..]) == Some(fakeCounter)
  {
    var s := GenerateFakeDeviceID(realID, fakeCounter);
    assert s[|realID| + 3..] == Decimal(fakeCounter);
    AtoiOfDecimal(fakeCounter);
  }

  /** The encoding is injective in both components, for every real ID: the
      separator the encoder appends is followed by digits only, so it is the
      last separator of the virtual ID and fixes where the real ID ends. */
  lemma GenerateInjective(r1: string, n1: nat, r2: string, n2: nat)
    requires GenerateFakeDeviceID(r1, n1) == GenerateFakeDeviceID(r2, n2)
    ensures r1 == r2 && n1 == n2
  {
    var s := GenerateFakeDeviceID(r1, n1);
    if |r1| < |r2| {
      SeparatorEndsRealID(r2, n2, r1, n1);
    } else if |r2| < |r1| {
      SeparatorEndsRealID(r1, n1, r2, n2);
    }
    assert r1 == s[..|r1|] == r2;
    assert Decimal(n1) == s[|r1| + 3..] == Decimal(n2);
    DecimalInjective(n1, n2);
  }

  /** A shorter real ID cannot encode to the same text: the '_' of the longer
      ID's separator would fall on the shorter ID's trailing '-' or on one of
      its counter's digits. */
  lemma SeparatorEndsRealID(long: string, m: nat, short: string, n: nat)
    requires |short| < |long|
    ensures GenerateFakeDeviceID(long, m) != GenerateFakeDeviceID(short, n)
  {
    var s := GenerateFakeDeviceID(long, m);
    var t := GenerateFakeDeviceID(short, n);
    assert s[|long| + 1] == '_';
    if |long| + 1 < |t| {
      if |long| == |short| + 1 {
        assert t[|long| + 1] == '-';
      } else {
        assert t[|long| + 1] == Decimal(n)[|long| + 1 - |short| - 3];
      }
    }
  }
}

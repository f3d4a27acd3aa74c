/** The device catalog (nvidia.go, getNumberContainersPerGPU, getDevices and
    deviceExists): the oversubscription factor read from the environment,
    the expansion of the physical GPUs into virtual devices, and the lookup
    of a device by ID. */
module DeviceCatalog {
  import opened Common
  import opened Numerals
  import opened IdentityCodec

  datatype Health = Healthy | Unhealthy

  /** A device as advertised to the kubelet. */
  datatype Device = Device(id: string, health: Health)

  /** The number of containers that may share one GPU, from the optional
      value of the environment setting: 1 when the setting is absent, the
      parsed integer when it is at least 1, and a fatal error otherwise. */
  function NumberContainersPerGPU(setting: Option<string>): (r: Result<nat>)
    ensures r.Ok? ==> 1 <= r.value <= MaxInt64
    ensures setting.None? ==> r == Ok(1)
    ensures r.Ok? && setting.Some? ==> Atoi(setting.value) == Some(r.value)
    ensures r.Fatal? ==> setting.Some?
    ensures setting.Some? && Atoi(setting.value).Some? ==> (r.Ok? <==> Atoi(setting.value).value >= 1)
    ensures setting.Some? && Atoi(setting.value).None? ==> r == Fatal(UnparsableSetting(setting.value))
  {
    match setting
    case None => Ok(1)
    case Some(s) =>
      match Atoi(s)
      case None => Fatal(UnparsableSetting(s))
      case Some(raw) => if raw < 1 then Fatal(FactorBelowOne(raw)) else Ok(raw)
  }

  /** Every in-range positive numeral is accepted as the factor it denotes. */
  lemma FactorOfNumeral(n: nat)
    requires 1 <= n <= MaxInt64
    ensures NumberContainersPerGPU(Some(Decimal(n))) == Ok(n)
  {
    AtoiOfDecimal(n);
  }

  /** Atoi's other spellings of a numeral are accepted too: a leading plus
      sign and leading zeros. */
  lemma FactorOfSignedAndPadded()
    ensures NumberContainersPerGPU(Some("+4")) == Ok(4)
    ensures NumberContainersPerGPU(Some("04")) == Ok(4)
  {
    assert "+4"[1..] == "4";
    assert "4"[..0] == [] && DigitsValue("4") == 4;
    assert "04"[..1] == "0";
    assert "0"[..0] == [] && DigitsValue("04") == 4;
  }

  /** Zero is rejected as below one. */
  lemma FactorZeroIsFatal()
    ensures NumberContainersPerGPU(Some("0")) == Fatal(FactorBelowOne(0))
  {
    AtoiOfDecimal(0);
  }

  /** Every in-range negative numeral is rejected as below one. */
  lemma FactorNegativeIsFatal(n: nat)
    requires 1 <= n <= -MinInt64
    ensures NumberContainersPerGPU(Some("-" + Decimal(n))) == Fatal(FactorBelowOne(-(n as int)))
  {
    AtoiOfNegatedDecimal(n);
  }

  /** Anything that is not a signed numeral, a lone sign included, is
      rejected as unparsable. */
  lemma FactorMalformedIsFatal(s: string)
    requires s == [] || s == "+" || s == "-"
          || (exists i :: 0 <= i < |s| && !IsDigit(s[i]) && !(i == 0 && IsSign(s[i])))
    ensures NumberContainersPerGPU(Some(s)) == Fatal(UnparsableSetting(s))
  {
    AtoiRejectsMalformed(s);
  }

  /** A numeral beyond the int64 range is rejected as unparsable, as Atoi
      reports a range error for it. */
  lemma FactorOutOfRangeIsFatal(n: nat)
    requires n > MaxInt64
    ensures NumberContainersPerGPU(Some(Decimal(n))) == Fatal(UnparsableSetting(Decimal(n)))
  {
    DigitsValueOfDecimal(n);
  }

  /** The devices of replica `j` of every physical GPU, in enumeration order. */
  function Replica(uuids: seq<string>, j: nat): seq<Device>
  {
    if uuids == [] then [] else [Device(GenerateFakeDeviceID(uuids[0], j), Healthy)] + Replica(uuids[1..], j)
  }

  /** The catalog of `factor` replicas: replica 0 of every GPU, then replica 1, and so on. */
  function Catalog(uuids: seq<string>, factor: nat): seq<Device>
  {
    if factor == 0 then [] else Catalog(uuids, factor - 1) + Replica(uuids, factor - 1)
  }

  lemma {:induction false} ReplicaAt(uuids: seq<string>, j: nat, i: nat)
    requires i < |uuids|
    ensures |Replica(uuids, j)| == |uuids|
    ensures Replica(uuids, j)[i] == Device(GenerateFakeDeviceID(uuids[i], j), Healthy)
  {
    if i > 0 {
      ReplicaAt(uuids[1..], j, i - 1);
    } else if |uuids| > 1 {
      ReplicaAt(uuids[1..], j, 0);
    } else {
      assert Replica(uuids[1..], j) == [];
    }
  }

  lemma {:induction false} ReplicaLength(uuids: seq<string>, j: nat)
    ensures |Replica(uuids, j)| == |uuids|
  {
    if uuids != [] {
      ReplicaLength(uuids[1..], j);
    }
  }

  /** The catalog holds |uuids| * factor devices; the one at j * |uuids| + i
      is replica j of GPU i, healthy. */
  lemma {:induction false} CatalogAt(uuids: seq<string>, factor: nat, j: nat, i: nat)
    requires j < factor && i < |uuids|
    ensures j * |uuids| + i < |Catalog(uuids, factor)|
    ensures Catalog(uuids, factor)[j * |uuids| + i] == Device(GenerateFakeDeviceID(uuids[i], j), Healthy)
  {
    var n := |uuids|;
    var earlier, rep := Catalog(uuids, factor - 1), Replica(uuids, factor - 1);
    assert Catalog(uuids, factor) == earlier + rep;
    CatalogLength(uuids, factor - 1);
    ReplicaLength(uuids, factor - 1);
    if j == factor - 1 {
      ReplicaAt(uuids, j, i);
      assert j * n + i == |earlier| + i;
    } else {
      IndexBelowBlock(j, i, n, factor - 1);
      CatalogAt(uuids, factor - 1, j, i);
    }
  }

  /** Position i of block j lies before block m when j < m. */
  lemma {:induction false} IndexBelowBlock(j: nat, i: nat, n: nat, m: nat)
    requires j < m && i < n
    ensures j * n + i < m * n
    decreases m
  {
    if m == j + 1 {
      assert m * n == j * n + n;
    } else {
      IndexBelowBlock(j, i, n, m - 1);
      assert m * n == (m - 1) * n + n;
    }
  }

  lemma {:induction false} CatalogLength(uuids: seq<string>, factor: nat)
    ensures |Catalog(uuids, factor)| == factor * |uuids|
  {
    if factor > 0 {
      CatalogLength(uuids, factor - 1);
      ReplicaLength(uuids, factor - 1);
      assert factor * |uuids| == (factor - 1) * |uuids| + |uuids|;
    }
  }

  /** Every device in the catalog is advertised healthy. */
  lemma {:induction false} CatalogHealthy(uuids: seq<string>, factor: nat)
    ensures forall d :: d in Catalog(uuids, factor) ==> d.health == Healthy
  {
    if factor > 0 {
      CatalogHealthy(uuids, factor - 1);
      ReplicaHealthy(uuids, factor - 1);
    }
  }

  lemma {:induction false} ReplicaHealthy(uuids: seq<string>, j: nat)
    ensures forall d :: d in Replica(uuids, j) ==> d.health == Healthy
  {
    if uuids != [] {
      ReplicaHealthy(uuids[1..], j);
    }
  }

  /** The devices of `devs` whose ID decodes to `realID`, in list order. */
  function DevicesOf(devs: seq<Device>, realID: string): seq<Device>
  {
    if devs == [] then []
    else
      (if ExtractRealDeviceID(devs[0].id) == realID then [devs[0]] else []) + DevicesOf(devs[1..], realID)
  }

  /** Each device of `devs` occurs in DevicesOf as often as in `devs` when it
      decodes to `realID`, and not at all otherwise. */
  lemma {:induction false} DevicesOfCount(devs: seq<Device>, realID: string, d: Device)
    ensures multiset(DevicesOf(devs, realID))[d]
         == if ExtractRealDeviceID(d.id) == realID then multiset(devs)[d] else 0
  {
    if devs != [] {
      DevicesOfCount(devs[1..], realID, d);
      assert devs == [devs[0]] + devs[1..];
    }
  }

  lemma {:induction false} DevicesOfAppend(a: seq<Device>, b: seq<Device>, realID: string)
    ensures DevicesOf(a + b, realID) == DevicesOf(a, realID) + DevicesOf(b, realID)
  {
    if a != [] {
      var ab := a + b;
      var head := if ExtractRealDeviceID(a[0].id) == realID then [a[0]] else [];
      assert ab[0] == a[0] && ab[1..] == a[1..] + b;
      DevicesOfAppend(a[1..], b, realID);
      var x, y := DevicesOf(a[1..], realID), DevicesOf(b, realID);
      assert DevicesOf(ab, realID) == head + DevicesOf(ab[1..], realID);
      assert head + (x + y) == (head + x) + y;
    } else {
      assert a + b == b;
    }
  }

  /** Within one replica, a valid real ID that names exactly one GPU matches
      exactly that GPU's device, and one that names no GPU matches nothing. */
  lemma {:induction false} ReplicaDevicesOf(uuids: seq<string>, j: nat, u: string)
    requires Distinct(uuids) && forall k :: 0 <= k < |uuids| ==> ValidRealID(uuids[k])
    ensures DevicesOf(Replica(uuids, j), u)
         == if u in uuids then [Device(GenerateFakeDeviceID(u, j), Healthy)] else []
  {
    if uuids != [] {
      var d := Device(GenerateFakeDeviceID(uuids[0], j), Healthy);
      RoundTrip(uuids[0], j);
      assert Replica(uuids, j) == [d] + Replica(uuids[1..], j);
      assert Distinct(uuids[1..]) by {
        forall a, b | 0 <= a < b < |uuids[1..]| ensures uuids[1..][a] != uuids[1..][b] {
          assert uuids[1..][a] == uuids[a + 1] && uuids[1..][b] == uuids[b + 1];
        }
      }
      ReplicaDevicesOf(uuids[1..], j, u);
      if u == uuids[0] {
        assert u !in uuids[1..] by {
          forall k | 0 <= k < |uuids[1..]| ensures uuids[1..][k] != u {
            assert uuids[1..][k] == uuids[k + 1];
          }
        }
      } else {
        assert u in uuids <==> u in uuids[1..] by {
          assert uuids == [uuids[0]] + uuids[1..];
        }
      }
    }
  }

  /** The `count` replicas of the GPU `realID`, in replica order. */
  function ReplicasOf(realID: string, count: nat): (r: seq<Device>)
    ensures |r| == count
  {
    if count == 0 then [] else ReplicasOf(realID, count - 1) + [Device(GenerateFakeDeviceID(realID, count - 1), Healthy)]
  }

  /** For distinct valid UUIDs, the catalog devices that decode to one
      physical GPU are exactly its `factor` replicas, in replica order. */
  lemma {:induction false} CatalogDevicesOf(uuids: seq<string>, factor: nat, i: nat)
    requires Distinct(uuids) && forall k :: 0 <= k < |uuids| ==> ValidRealID(uuids[k])
    requires i < |uuids|
    ensures DevicesOf(Catalog(uuids, factor), uuids[i]) == ReplicasOf(uuids[i], factor)
    ensures |DevicesOf(Catalog(uuids, factor), uuids[i])| == factor
  {
    if factor > 0 {
      var u := uuids[i];
      CatalogDevicesOf(uuids, factor - 1, i);
      ReplicaDevicesOf(uuids, factor - 1, u);
      assert u in uuids;
      DevicesOfNextBlock(Catalog(uuids, factor - 1), Replica(uuids, factor - 1), u, ReplicasOf(u, factor - 1),
                Device(GenerateFakeDeviceID(u, factor - 1), Healthy));
    }
  }

  /** Appending a block in which exactly `d` decodes to `u` appends `d` to
      the devices decoding to `u`. */
  lemma DevicesOfNextBlock(earlier: seq<Device>, block: seq<Device>, u: string, prev: seq<Device>, d: Device)
    requires DevicesOf(earlier, u) == prev && DevicesOf(block, u) == [d]
    ensures DevicesOf(earlier + block, u) == prev + [d]
  {
    DevicesOfAppend(earlier, block, u);
  }

  /** One more step of the inner loop of getDevices extends the replica pass by GPU i. */
  lemma ReplicaPrefixNext(uuids: seq<string>, j: nat, i: nat)
    requires i < |uuids|
    ensures |Replica(uuids, j)| == |uuids|
    ensures Replica(uuids, j)[..i + 1] == Replica(uuids, j)[..i] + [Device(GenerateFakeDeviceID(uuids[i], j), Healthy)]
  {
    ReplicaAt(uuids, j, i);
    assert Replica(uuids, j)[..i + 1] == Replica(uuids, j)[..i] + [Replica(uuids, j)[i]];
  }

  /** getDevices on the UUIDs of the physical GPUs, in enumeration order, and
      the value of the factor setting: the outer loop runs over replicas and
      the inner over GPUs, appending one healthy device per pair. */
  method GetDevices(uuids: seq<string>, setting: Option<string>) returns (r: Result<seq<Device>>)
    ensures NumberContainersPerGPU(setting).Fatal? ==> r == Fatal(NumberContainersPerGPU(setting).error)
    ensures NumberContainersPerGPU(setting).Ok? ==> r == Ok(Catalog(uuids, NumberContainersPerGPU(setting).value))
  {
    var factor := NumberContainersPerGPU(setting);
    if factor.Fatal? {
      return Fatal(factor.error);
    }
    var devs: seq<Device> := [];
    var j := 0;
    while j < factor.value
      invariant j <= factor.value
      invariant devs == Catalog(uuids, j)
    {
      ReplicaLength(uuids, j);
      var i := 0;
      while i < |uuids|
        invariant i <= |uuids|
        invariant devs == Catalog(uuids, j) + Replica(uuids, j)[..i]
      {
        ReplicaPrefixNext(uuids, j, i);
        devs := devs + [Device(GenerateFakeDeviceID(uuids[i], j), Healthy)];
        i := i + 1;
      }
      assert Replica(uuids, j)[..i] == Replica(uuids, j);
      assert Catalog(uuids, j + 1) == Catalog(uuids, j) + Replica(uuids, j);
      j := j + 1;
    }
    return Ok(devs);
  }

  /** deviceExists: whether some device of the list has the given ID. */
  method DeviceExists(devs: seq<Device>, id: string) returns (found: bool)
    ensures found <==> exists k :: 0 <= k < |devs| && devs[k].id == id
  {
    for k := 0 to |devs|
      invariant forall m :: 0 <= m < k ==> devs[m].id != id
    {
      if devs[k].id == id {
        return true;
      }
    }
    return false;
  }
}

/**
 * The read plan of a coordinator configured with the catalog defaults only:
 * the 33 default register entries hold 25 distinct addresses, and with the
 * gap of 3 they are fetched in two reads, registers 0-7 and 29-48.
 */
module CatalogPlan {
  import opened Const
  import opened ReadBlocks
  import opened Coordinator

  /** The distinct default addresses in ascending order. */
  const CATALOG_ADDRESSES: seq<int> :=
    [0, 1, 2, 3, 4, 5, 6, 7, 29, 31, 32, 33, 34, 35, 36, 39, 40, 41, 42, 43, 44, 45, 46, 47, 48]

  /** The two reads a default coordinator issues on every poll. */
  const CATALOG_BLOCKS: seq<Block> := [Block(0, 8), Block(29, 20)]

  /** The default register map as the coordinator holds it, every value an address. */
  function DefaultMap(): map<string, RegValue> {
    EffectiveRegisters(DefaultRegisters(), map[])
  }

  function SensorAddresses(): set<int> {
    set i | 0 <= i < |SENSOR_DESCRIPTIONS| :: SENSOR_DESCRIPTIONS[i].address
  }

  function WriteAddresses(): set<int> {
    set i | 0 <= i < |SWITCH_DESCRIPTIONS| :: SWITCH_DESCRIPTIONS[i].writeAddress
  }

  function VerifyAddresses(): set<int> {
    set i | 0 <= i < |SWITCH_DESCRIPTIONS| :: SWITCH_DESCRIPTIONS[i].verifyAddress
  }

  /** Every address some catalog entry names: sensor addresses, write and verify addresses. */
  function DescribedAddresses(): set<int> {
    SensorAddresses() + WriteAddresses() + VerifyAddresses()
  }

  lemma SensorKeyIndex(ds: seq<SensorDescription>, k: string) returns (i: nat)
    requires k in SensorKeys(ds)
    ensures i < |ds| && k == SensorKey(ds[i].key)
  {
    var d :| d in ds && k == SensorKey(d.key);
    i :| i < |ds| && ds[i] == d;
  }

  lemma SwitchKeyIndex(ds: seq<SwitchDescription>, k: string) returns (i: nat)
    requires k in WriteKeys(ds) + VerifyKeys(ds)
    ensures i < |ds| && (k == WriteKey(ds[i].key) || k == VerifyKey(ds[i].key))
  {
    var d :| d in ds && (k == WriteKey(d.key) || k == VerifyKey(d.key));
    i :| i < |ds| && ds[i] == d;
  }

  /** Each `_address` entry of the default map holds an address some catalog entry names. */
  lemma DefaultAddressesDescribed()
    ensures AddressSet(DefaultMap()) <= DescribedAddresses()
  {
    var R := DefaultMap();
    DefaultRegistersSpec();
    forall a | a in AddressSet(R) ensures a in DescribedAddresses() {
      var k :| k in R && IsAddressKey(k) && R[k].Addr? && R[k].address == a;
      if k in SensorKeys(SENSOR_DESCRIPTIONS) {
        var i := SensorKeyIndex(SENSOR_DESCRIPTIONS, k);
        assert a == SENSOR_DESCRIPTIONS[i].address;
      } else {
        var i := SwitchKeyIndex(SWITCH_DESCRIPTIONS, k);
        assert a == SWITCH_DESCRIPTIONS[i].writeAddress || a == SWITCH_DESCRIPTIONS[i].verifyAddress;
      }
    }
  }

  /** A value under an `_address` key is part of the planner input. */
  lemma AddressEntry(R: map<string, RegValue>, k: string)
    requires k in R && IsAddressKey(k) && R[k].Addr?
    ensures R[k].address in AddressSet(R)
  {
  }

  lemma SensorAddressesDefault(i: nat)
    requires i < |SENSOR_DESCRIPTIONS|
    ensures SENSOR_DESCRIPTIONS[i].address in AddressSet(DefaultMap())
  {
    var d := SENSOR_DESCRIPTIONS[i];
    DefaultRegistersSpec();
    KeySuffixes(d.key);
    AddressEntry(DefaultMap(), SensorKey(d.key));
  }

  lemma SwitchAddressesDefault(i: nat)
    requires i < |SWITCH_DESCRIPTIONS|
    ensures SWITCH_DESCRIPTIONS[i].writeAddress in AddressSet(DefaultMap())
    ensures SWITCH_DESCRIPTIONS[i].verifyAddress in AddressSet(DefaultMap())
  {
    var d := SWITCH_DESCRIPTIONS[i];
    DefaultRegistersSpec();
    KeySuffixes(d.key);
    AddressEntry(DefaultMap(), WriteKey(d.key));
    AddressEntry(DefaultMap(), VerifyKey(d.key));
  }

  /** Each address a catalog entry names is stored under an `_address` key of the default map. */
  lemma DescribedAddressesDefault()
    ensures DescribedAddresses() <= AddressSet(DefaultMap())
  {
    forall a | a in DescribedAddresses() ensures a in AddressSet(DefaultMap()) {
      if a in SensorAddresses() {
        var i :| 0 <= i < |SENSOR_DESCRIPTIONS| && SENSOR_DESCRIPTIONS[i].address == a;
        SensorAddressesDefault(i);
      } else {
        var i :| 0 <= i < |SWITCH_DESCRIPTIONS|
          && (SWITCH_DESCRIPTIONS[i].writeAddress == a || SWITCH_DESCRIPTIONS[i].verifyAddress == a);
        SwitchAddressesDefault(i);
      }
    }
  }

  /** The planner input of the default map is exactly the addresses the catalog names. */
  lemma DefaultAddressSet()
    ensures AddressSet(DefaultMap()) == DescribedAddresses()
  {
    DefaultAddressesDescribed();
    DescribedAddressesDefault();
  }

  const SENSOR_ADDRESSES: seq<int> := [0, 1, 2, 3, 4, 5, 6, 7, 29, 31, 32, 33, 34, 35, 36, 45, 46, 47, 48]
  const WRITE_ADDRESSES: seq<int> := [39, 40, 41, 42, 43, 44, 45]
  const VERIFY_ADDRESSES: seq<int> := [31, 32, 33, 34, 35, 44, 45]

  lemma CatalogAddressColumns()
    ensures |SENSOR_ADDRESSES| == |SENSOR_DESCRIPTIONS|
    ensures forall i :: 0 <= i < |SENSOR_DESCRIPTIONS| ==> SENSOR_DESCRIPTIONS[i].address == SENSOR_ADDRESSES[i]
    ensures |WRITE_ADDRESSES| == |VERIFY_ADDRESSES| == |SWITCH_DESCRIPTIONS|
    ensures forall i :: 0 <= i < |SWITCH_DESCRIPTIONS| ==>
      SWITCH_DESCRIPTIONS[i].writeAddress == WRITE_ADDRESSES[i]
      && SWITCH_DESCRIPTIONS[i].verifyAddress == VERIFY_ADDRESSES[i]
  {
  }

  lemma ColumnElems(s: seq<int>, f: set<int>)
    requires f == set i | 0 <= i < |s| :: s[i]
    ensures f == Elems(s)
  {
    forall x | x in Elems(s) ensures x in f {
      var i :| 0 <= i < |s| && s[i] == x;
    }
  }

  /** The catalog names 25 distinct addresses: 0-7, 29, 31-36 and 39-48. */
  lemma DescribedAddressesListed()
    ensures DescribedAddresses() == Elems(CATALOG_ADDRESSES)
  {
    CatalogAddressColumns();
    ColumnElems(SENSOR_ADDRESSES, SensorAddresses());
    ColumnElems(WRITE_ADDRESSES, WriteAddresses());
    ColumnElems(VERIFY_ADDRESSES, VerifyAddresses());
    assert Elems(SENSOR_ADDRESSES) + Elems(WRITE_ADDRESSES) + Elems(VERIFY_ADDRESSES) == Elems(CATALOG_ADDRESSES);
  }

  /** The shape of the sorted catalog addresses: 0-7, a hole of 22, then steps of at most 3 up to 48. */
  predicate CatalogShape(s: seq<int>) {
    && |s| == 25 && s[0] == 0 && s[7] == 7 && s[8] == 29 && s[24] == 48
    && (forall i :: 0 <= i < 7 ==> 1 <= Step(s, i) <= MAX_GAP)
    && (forall i :: 8 <= i < 24 ==> 1 <= Step(s, i) <= MAX_GAP)
  }

  /**
   * The catalog's steps, one index at a time. Each empty branch fixes `i`
   * to a literal, so the solver evaluates that one step on the literal
   * address list instead of reasoning about a symbolic index; the last index
   * of each range is the remaining case.
   */
  lemma CatalogSteps()
    ensures CatalogShape(CATALOG_ADDRESSES)
  {
    var s := CATALOG_ADDRESSES;
    forall i | 0 <= i < 7 ensures Step(s, i) == 1 {
      if i == 0 {} else if i == 1 {} else if i == 2 {} else if i == 3 {} else if i == 4 {} else if i == 5 {}
    }
    forall i | 8 <= i < 24 ensures 1 <= Step(s, i) <= MAX_GAP {
      if i == 8 {} else if i == 9 {} else if i == 10 {} else if i == 11 {} else if i == 12 {} else if i == 13 {} else if i == 14 {} else if i == 15 {} else if i == 16 {} else if i == 17 {} else if i == 18 {} else if i == 19 {} else if i == 20 {} else if i == 21 {} else if i == 22 {}
    }
  }

  lemma ShapedPlan(s: seq<int>)
    requires CatalogShape(s)
    ensures PlanSorted(s, MAX_GAP) == CATALOG_BLOCKS
  {
    TwoRuns(s, 8, MAX_GAP);
  }

  lemma ShapedIncreasing(s: seq<int>)
    requires CatalogShape(s)
    ensures StrictlyIncreasing(s)
  {
    assert Step(s, 7) > 0;
    StepsIncreasing(s);
  }

  lemma CatalogSorted()
    ensures StrictlyIncreasing(CATALOG_ADDRESSES)
    ensures SortedDistinct(CATALOG_ADDRESSES) == CATALOG_ADDRESSES
  {
    CatalogSteps();
    ShapedIncreasing(CATALOG_ADDRESSES);
    SortedUnique(SortedDistinct(CATALOG_ADDRESSES), CATALOG_ADDRESSES);
  }

  /** Sorted, the catalog addresses split once, at the 22-register hole between 7 and 29. */
  lemma CatalogPlanIsTwoReads()
    ensures Plan(CATALOG_ADDRESSES, MAX_GAP) == CATALOG_BLOCKS
  {
    CatalogSorted();
    CatalogSteps();
    ShapedPlan(CATALOG_ADDRESSES);
  }

  /**
   * A coordinator configured without options reads registers 0-7 and 29-48,
   * whatever order the register map yields its entries in.
   */
  lemma DefaultCoordinatorBlocks(c: WanasCoordinator)
    requires c.Valid() && c.registers == DefaultMap()
    ensures c.readBlocks == CATALOG_BLOCKS
  {
    DefaultAddressSet();
    DescribedAddressesListed();
    PlanDependsOnlyOnSet(c.plannedAddresses, CATALOG_ADDRESSES, MAX_GAP);
    CatalogPlanIsTwoReads();
  }
}

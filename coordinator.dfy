/**
 * `WanasCoordinator` of `coordinator.py`: the effective register map, the
 * read plan computed from it once, the Modbus client handle that is created
 * lazily and dropped after transport failures, the all-or-nothing poll, and
 * the register write that asks for a refresh.
 *
 * The pymodbus client is an abstract transport: what `connect`,
 * `read_holding_registers` and `write_register` do is given to each
 * operation as an input, and the requests the coordinator issues are
 * recorded in `sent`.
 */
module Coordinator {
  import opened Wrappers
  import opened Const
  import opened ReadBlocks
  import opened Codec

  /** The default `max_gap` of `_build_read_blocks`, which the coordinator uses. */
  const MAX_GAP := 3

  // ---------------------------------------------------------------------
  // Effective register map and planner input
  // ---------------------------------------------------------------------

  /** `{**defaults, **overrides}`: the options win key by key. */
  function EffectiveRegisters(defaults: map<string, int>, overrides: map<string, RegValue>)
    : (r: map<string, RegValue>)
    ensures r.Keys == defaults.Keys + overrides.Keys
    ensures forall k :: k in overrides ==> r[k] == overrides[k]
    ensures forall k :: k in defaults && k !in overrides ==> r[k] == Addr(defaults[k])
  {
    (map k | k in defaults :: Addr(defaults[k])) + overrides
  }

  predicate IsAddressKey(k: string) {
    EndsWith(k, "_address")
  }

  /** The values the planner is given: every int stored under a key ending in `_address`. */
  function AddressSet(registers: map<string, RegValue>): set<int> {
    AddressesUnder(registers, registers.Keys)
  }

  function AddressesUnder(registers: map<string, RegValue>, keys: set<string>): set<int> {
    set k | k in keys && k in registers && IsAddressKey(k) && registers[k].Addr? :: registers[k].address
  }

  /** Sensor, write and verify addresses that hold an int are planned, whichever key they sit under. */
  lemma AddressKeysPlanned(registers: map<string, RegValue>, key: string)
    ensures SensorKey(key) in registers && registers[SensorKey(key)].Addr? ==>
      registers[SensorKey(key)].address in AddressSet(registers)
    ensures WriteKey(key) in registers && registers[WriteKey(key)].Addr? ==>
      registers[WriteKey(key)].address in AddressSet(registers)
    ensures VerifyKey(key) in registers && registers[VerifyKey(key)].Addr? ==>
      registers[VerifyKey(key)].address in AddressSet(registers)
  {
    KeySuffixes(key);
  }

  /** A `_name` entry never reaches the planner, whatever it holds. */
  lemma NameEntriesIgnored(registers: map<string, RegValue>, key: string, v: RegValue)
    ensures AddressSet(registers[NameKey(key) := v]) == AddressSet(registers - {NameKey(key)})
  {
    var n := NameKey(key);
    KeySuffixes(key);
    var r1, r2 := registers[n := v], registers - {n};
    forall a | a in AddressSet(r1) ensures a in AddressSet(r2) {
      var k :| k in r1 && IsAddressKey(k) && r1[k].Addr? && r1[k].address == a;
      assert k != n && k in r2;
    }
    forall a | a in AddressSet(r2) ensures a in AddressSet(r1) {
      var k :| k in r2 && IsAddressKey(k) && r2[k].Addr? && r2[k].address == a;
      assert k in r1;
    }
  }

  /** A text value never reaches the planner, whatever key it sits under. */
  lemma TextValuesIgnored(registers: map<string, RegValue>, k: string, t: string)
    ensures AddressSet(registers[k := Text(t)]) == AddressSet(registers - {k})
  {
    var r1, r2 := registers[k := Text(t)], registers - {k};
    forall a | a in AddressSet(r1) ensures a in AddressSet(r2) {
      var j :| j in r1 && IsAddressKey(j) && r1[j].Addr? && r1[j].address == a;
      assert j in r2;
    }
    forall a | a in AddressSet(r2) ensures a in AddressSet(r1) {
      var j :| j in r2 && IsAddressKey(j) && r2[j].Addr? && r2[j].address == a;
      assert j in r1;
    }
  }

  /** The list comprehension over `registers.items()` feeding the planner, in map order. */
  method AddressList(registers: map<string, RegValue>) returns (addresses: seq<int>)
    ensures Elems(addresses) == AddressSet(registers)
  {
    addresses := [];
    var todo := registers.Keys;
    ghost var seen: set<string> := {};
    while todo != {}
      invariant seen == registers.Keys - todo
      invariant todo <= registers.Keys
      invariant Elems(addresses) == AddressesUnder(registers, seen)
      decreases |todo|
    {
      var k :| k in todo;
      ghost var before := AddressesUnder(registers, seen);
      if IsAddressKey(k) && registers[k].Addr? {
        addresses := addresses + [registers[k].address];
        assert Elems(addresses) == Elems(addresses[..|addresses| - 1]) + {registers[k].address};
        assert AddressesUnder(registers, seen + {k}) == before + {registers[k].address};
      } else {
        assert AddressesUnder(registers, seen + {k}) == before;
      }
      todo := todo - {k};
      seen := seen + {k};
    }
  }

  // ---------------------------------------------------------------------
  // The transport and what the coordinator reports
  // ---------------------------------------------------------------------

  /** `_client`: no client, a connected client, or a client whose link is down. */
  datatype ClientState = NoClient | Connected | Disconnected

  /** What `client.connect()` does: returns True, returns False, or raises. */
  datatype ConnectOutcome = ConnectOk | ConnectRefused | ConnectRaised

  /** What `read_holding_registers` does: returns registers, an error response, or raises. */
  datatype ReadOutcome = ReadOk(words: seq<Word>) | ReadErrorResponse | ReadRaised

  /** What `write_register` does: returns a normal response, an error response, or raises. */
  datatype WriteOutcome = WriteOk | WriteErrorResponse | WriteRaised

  /** A request the coordinator hands to the transport. */
  datatype Request = ReadRequest(address: int, count: int) | WriteRequest(target: RegValue, value: int)

  /** The `UpdateFailed` errors the coordinator raises, one per message it formats. */
  datatype UpdateFailed =
    | ConnectFailed              // "Failed to connect to Modbus device at host:port"
    | ConnectionError            // "Connection error: ..."
    | ReadFailed(address: int)   // "Error reading registers at address ..."
    | FetchError                 // "Error fetching data: ..."
    | WriteFailed(target: RegValue)  // "Error writing register <address>: ..."
    | WriteError                 // "Error writing register: ..."

  /** An exception in flight: an `UpdateFailed`, or any other exception from the transport. */
  datatype Raised = RaisedUpdateFailed(error: UpdateFailed) | TransportException

  datatype UpdateResult = Fetched(data: Snapshot) | Failed(error: UpdateFailed)

  function ReadRequests(blocks: seq<Block>): (r: seq<Request>)
    ensures |r| == |blocks|
    ensures forall i :: 0 <= i < |blocks| ==> r[i] == ReadRequest(blocks[i].start, blocks[i].count)
  {
    seq(|blocks|, i requires 0 <= i < |blocks| => ReadRequest(blocks[i].start, blocks[i].count))
  }

  /** Position of the first read that did not return registers, or `|outcomes|` when all did. */
  function FirstFailure(outcomes: seq<ReadOutcome>): (n: nat)
    ensures n <= |outcomes|
    ensures forall i :: 0 <= i < n ==> outcomes[i].ReadOk?
    ensures n < |outcomes| ==> !outcomes[n].ReadOk?
  {
    if outcomes == [] || !outcomes[0].ReadOk? then 0
    else 1 + FirstFailure(outcomes[1..])
  }

  /** `data` after the words of one block have been stored from `start` on, later words last. */
  function Fill(data: Snapshot, start: int, words: seq<Word>): (r: Snapshot)
    ensures forall a :: a in r <==> a in data || start <= a < start + |words|
    ensures forall a :: start <= a < start + |words| ==> r[a] == words[a - start]
    ensures forall a :: a in data && !(start <= a < start + |words|) ==> r[a] == data[a]
  {
    if words == [] then data
    else
      var n := |words| - 1;
      Fill(data, start, words[..n])[start + n := words[n]]
  }

  /** The inner `for i, val in enumerate(regs)` loop. */
  method FillBlock(data: Snapshot, start: int, words: seq<Word>) returns (filled: Snapshot)
    ensures filled == Fill(data, start, words)
  {
    filled := data;
    for i := 0 to |words|
      invariant filled == Fill(data, start, words[..i])
    {
      assert words[..i + 1][..i] == words[..i];
      filled := filled[start + i := words[i]];
    }
    assert words[..|words|] == words;
  }

  lemma MergeStep(blocks: seq<Block>, outcomes: seq<ReadOutcome>, k: nat)
    requires |outcomes| == |blocks| && k < |blocks|
    requires forall i :: 0 <= i <= k ==> outcomes[i].ReadOk?
    ensures Merge(blocks[..k + 1], outcomes[..k + 1])
      == Fill(Merge(blocks[..k], outcomes[..k]), blocks[k].start, outcomes[k].words)
  {
    assert blocks[..k + 1][..k] == blocks[..k] && outcomes[..k + 1][..k] == outcomes[..k];
  }

  lemma ReadRequestsStep(blocks: seq<Block>, k: nat)
    requires k < |blocks|
    ensures ReadRequests(blocks[..k + 1]) == ReadRequests(blocks[..k]) + [ReadRequest(blocks[k].start, blocks[k].count)]
  {
  }

  lemma NoFailure(outcomes: seq<ReadOutcome>)
    requires forall i :: 0 <= i < |outcomes| ==> outcomes[i].ReadOk?
    ensures FirstFailure(outcomes) == |outcomes|
  {
  }

  lemma FirstFailureAt(outcomes: seq<ReadOutcome>, k: nat)
    requires k < |outcomes| && !outcomes[k].ReadOk?
    requires forall i :: 0 <= i < k ==> outcomes[i].ReadOk?
    ensures FirstFailure(outcomes) == k
  {
  }

  /** The map the read loop builds when every block returns registers. */
  function Merge(blocks: seq<Block>, outcomes: seq<ReadOutcome>): Snapshot
    requires |outcomes| == |blocks|
    requires forall i :: 0 <= i < |outcomes| ==> outcomes[i].ReadOk?
  {
    if blocks == [] then map[]
    else
      var n := |blocks| - 1;
      Fill(Merge(blocks[..n], outcomes[..n]), blocks[n].start, outcomes[n].words)
  }

  class WanasCoordinator {
    /** The effective register map. */
    const registers: map<string, RegValue>
    /** The planner's input list, in map order. */
    ghost const plannedAddresses: seq<int>
    /** The read plan, computed once. */
    const readBlocks: seq<Block>

    var client: ClientState
    /** How many times `async_request_refresh` was called. */
    var refreshRequests: nat
    /** Every request handed to the transport, oldest first. */
    var sent: seq<Request>

    /** The read plan is the plan of the `_address` values of the register map. */
    ghost predicate Valid() {
      Elems(plannedAddresses) == AddressSet(registers) && readBlocks == Plan(plannedAddresses, MAX_GAP)
    }

    /** `__init__`: options override the catalog defaults, then the read plan is built. */
    constructor (overrides: map<string, RegValue>)
      ensures Valid()
      ensures registers == EffectiveRegisters(DefaultRegisters(), overrides)
      ensures client == NoClient && refreshRequests == 0 && sent == []
    {
      var defaults := GetDefaultRegisters();
      var regs := EffectiveRegisters(defaults, overrides);
      var allAddresses := AddressList(regs);
      registers := regs;
      plannedAddresses := allAddresses;
      var blocks := BuildReadBlocks(allAddresses, MAX_GAP);
      readBlocks := blocks;
      client := NoClient;
      refreshRequests := 0;
      sent := [];
    }

    /**
     * `_get_client`: keeps a connected client; otherwise replaces it with a
     * new one and connects. A refused connect raises `UpdateFailed` and an
     * exception from `connect` propagates; both leave the new, unconnected
     * client in place.
     */
    method GetClient(connect: ConnectOutcome) returns (raised: Option<Raised>)
      modifies this`client
      ensures old(client) == Connected ==> client == Connected && raised == None
      ensures old(client) != Connected && connect == ConnectOk ==> client == Connected && raised == None
      ensures old(client) != Connected && connect == ConnectRefused ==>
        client == Disconnected && raised == Some(RaisedUpdateFailed(ConnectFailed))
      ensures old(client) != Connected && connect == ConnectRaised ==>
        client == Disconnected && raised == Some(TransportException)
    {
      if client != Connected {
        client := Disconnected;
        match connect
        case ConnectOk =>
          client := Connected;
        case ConnectRefused =>
          return Some(RaisedUpdateFailed(ConnectFailed));
        case ConnectRaised =>
          return Some(TransportException);
      }
      return None;
    }

    /** `_read_registers`: an error response becomes `UpdateFailed`; an exception passes through. */
    static function ReadRegisters(address: int, outcome: ReadOutcome): (r: Result<seq<Word>, Raised>)
      ensures r.Success? <==> outcome.ReadOk?
      ensures outcome.ReadOk? ==> r.value == outcome.words
      ensures outcome.ReadErrorResponse? ==> r == Failure(RaisedUpdateFailed(ReadFailed(address)))
      ensures outcome.ReadRaised? ==> r == Failure(TransportException)
    {
      match outcome
      case ReadOk(words) => Success(words)
      case ReadErrorResponse => Failure(RaisedUpdateFailed(ReadFailed(address)))
      case ReadRaised => Failure(TransportException)
    }

    /**
     * `_async_update_data`: one read per block in plan order, stopping at the
     * first failure. A map is returned only when the client was obtained and
     * every read returned registers; an error response fails the poll and
     * keeps the client, every other failure also drops it.
     */
    method AsyncUpdateData(connect: ConnectOutcome, outcomes: seq<ReadOutcome>) returns (result: UpdateResult)
      requires |outcomes| == |readBlocks|
      modifies this`client, this`sent
      ensures var acquired := old(client) == Connected || connect == ConnectOk;
        var n := FirstFailure(outcomes);
        && (result.Fetched? <==> acquired && n == |outcomes|)
        && (!acquired ==> client == NoClient && result == Failed(ConnectionError) && sent == old(sent))
        && (acquired ==> sent == old(sent) + ReadRequests(readBlocks[..if n < |outcomes| then n + 1 else n]))
        && (acquired && n == |outcomes| ==> client == Connected && result == Fetched(Merge(readBlocks, outcomes)))
        && (acquired && n < |outcomes| && outcomes[n].ReadErrorResponse? ==>
              client == Connected && result == Failed(ReadFailed(readBlocks[n].start)))
        && (acquired && n < |outcomes| && outcomes[n].ReadRaised? ==>
              client == NoClient && result == Failed(FetchError))
    {
      var raised := GetClient(connect);
      if raised != None {
        client := NoClient;
        return Failed(ConnectionError);
      }
      var data: Snapshot := map[];
      for k := 0 to |readBlocks|
        invariant client == Connected
        invariant forall m :: 0 <= m < k ==> outcomes[m].ReadOk?
        invariant data == Merge(readBlocks[..k], outcomes[..k])
        invariant sent == old(sent) + ReadRequests(readBlocks[..k])
      {
        var start, count := readBlocks[k].start, readBlocks[k].count;
        sent := sent + [ReadRequest(start, count)];
        ReadRequestsStep(readBlocks, k);
        match ReadRegisters(start, outcomes[k])
        case Failure(RaisedUpdateFailed(e)) =>
          FirstFailureAt(outcomes, k);
          return Failed(e);
        case Failure(TransportException) =>
          FirstFailureAt(outcomes, k);
          client := NoClient;
          return Failed(FetchError);
        case Success(regs) =>
          data := FillBlock(data, start, regs);
          MergeStep(readBlocks, outcomes, k);
      }
      NoFailure(outcomes);
      assert readBlocks[..|readBlocks|] == readBlocks && outcomes[..|outcomes|] == outcomes;
      return Fetched(data);
    }
  
    /**
     * `async_write_register`: connect if needed, write, and ask for a refresh
     * only when the write succeeded. `UpdateFailed` (a refused connect, an
     * error response) propagates and keeps the client; any other exception
     * drops the client and becomes "Error writing register".
     */
    method AsyncWriteRegister(address: RegValue, value: int, connect: ConnectOutcome, write: WriteOutcome)
      returns (raised: Option<UpdateFailed>)
      modifies this`client, this`sent, this`refreshRequests
      ensures (raised == None) <==> (refreshRequests == old(refreshRequests) + 1)
      ensures raised != None ==> refreshRequests == old(refreshRequests)
      ensures old(client) == Connected || connect == ConnectOk ==>
        && sent == old(sent) + [WriteRequest(address, value)]
        && (write == WriteOk ==> raised == None && client == Connected)
        && (write == WriteErrorResponse ==> raised == Some(WriteFailed(address)) && client == Connected)
        && (write == WriteRaised ==> raised == Some(WriteError) && client == NoClient)
      ensures old(client) != Connected && connect == ConnectRefused ==>
        raised == Some(ConnectFailed) && client == Disconnected && sent == old(sent)
      ensures old(client) != Connected && connect == ConnectRaised ==>
        raised == Some(WriteError) && client == NoClient && sent == old(sent)
    {
      var got := GetClient(connect);
      match got
      case Some(RaisedUpdateFailed(e)) =>
        return Some(e);
      case Some(TransportException) =>
        client := NoClient;
        return Some(WriteError);
      case None =>
      sent := sent + [WriteRequest(address, value)];
      match write
      case WriteOk =>
        refreshRequests := refreshRequests + 1;
        return None;
      case WriteErrorResponse =>
        return Some(WriteFailed(address));
      case WriteRaised =>
        client := NoClient;
        return Some(WriteError);
    }

    /** `async_close`: only a connected client is closed and forgotten. */
    method AsyncClose()
      modifies this`client
      ensures old(client) == Connected ==> client == NoClient
      ensures old(client) != Connected ==> client == old(client)
    {
      if client == Connected {
        client := NoClient;
      }
    }

    /** The transport dropping the link under an existing client (`connected` turns false). */
    method ConnectionDropped()
      modifies this`client
      ensures client == if old(client) == NoClient then NoClient else Disconnected
    {
      if client != NoClient {
        client := Disconnected;
      }
    }
  }

  // ---------------------------------------------------------------------
  // What a successful poll holds
  // ---------------------------------------------------------------------

  /** Every block returned registers, as many as it asked for. */
  predicate FullReads(blocks: seq<Block>, outcomes: seq<ReadOutcome>) {
    && |outcomes| == |blocks|
    && forall k :: 0 <= k < |outcomes| ==> outcomes[k].ReadOk? && |outcomes[k].words| == blocks[k].count
  }

  /** The keys of the polled map are exactly the ranges the reads returned. */
  lemma {:induction false} MergeKeys(blocks: seq<Block>, outcomes: seq<ReadOutcome>, a: int)
    requires |outcomes| == |blocks|
    requires forall i :: 0 <= i < |outcomes| ==> outcomes[i].ReadOk?
    ensures a in Merge(blocks, outcomes) <==>
      exists k :: 0 <= k < |blocks| && blocks[k].start <= a < blocks[k].start + |outcomes[k].words|
    decreases |blocks|
  {
    if blocks != [] {
      var n := |blocks| - 1;
      MergeKeys(blocks[..n], outcomes[..n], a);
      if a in Merge(blocks, outcomes) && !(blocks[n].start <= a < blocks[n].start + |outcomes[n].words|) {
        var k :| 0 <= k < n && blocks[..n][k].start <= a < blocks[..n][k].start + |outcomes[..n][k].words|;
        assert blocks[k].start <= a < blocks[k].start + |outcomes[k].words|;
      }
      if exists k :: 0 <= k < |blocks| && blocks[k].start <= a < blocks[k].start + |outcomes[k].words| {
        var k :| 0 <= k < |blocks| && blocks[k].start <= a < blocks[k].start + |outcomes[k].words|;
        if k < n {
          assert blocks[..n][k].start <= a < blocks[..n][k].start + |outcomes[..n][k].words|;
        }
      }
    }
  }

  /** Every register of block `b` is in `m`, holding the word read for it. */
  predicate Holds(m: Snapshot, b: Block, words: seq<Word>) {
    |words| == b.count && forall a :: b.start <= a < b.start + b.count ==> a in m && m[a] == words[a - b.start]
  }

  /** Storing a later block leaves an earlier, lower block as it was. */
  lemma HoldsAfterFill(m: Snapshot, b: Block, words: seq<Word>, start: int, later: seq<Word>)
    requires Holds(m, b, words) && End(b) < start
    ensures Holds(Fill(m, start, later), b, words)
  {
    var r := Fill(m, start, later);
    assert b.start + b.count <= start;
  }

  /** When every block returned in full, the polled keys are exactly the registers the blocks cover. */
  lemma MergeKeysFull(blocks: seq<Block>, outcomes: seq<ReadOutcome>, a: int)
    requires FullReads(blocks, outcomes)
    ensures a in Merge(blocks, outcomes) <==> BlockIndex(blocks, a) < |blocks|
  {
    MergeKeys(blocks, outcomes, a);
    var k := BlockIndex(blocks, a);
    if k < |blocks| {
      assert blocks[k].start <= a < blocks[k].start + |outcomes[k].words|;
    }
    if a in Merge(blocks, outcomes) {
      var j :| 0 <= j < |blocks| && blocks[j].start <= a < blocks[j].start + |outcomes[j].words|;
      assert Covers(blocks[j], a);
    }
  }

  /**
   * With non-overlapping blocks in ascending order and full-length reads,
   * register `start + i` of block `k` holds the `i`-th word that block returned.
   */
  lemma {:induction false} MergeValues(blocks: seq<Block>, outcomes: seq<ReadOutcome>)
    requires FullReads(blocks, outcomes) && Ascending(blocks)
    ensures forall k :: 0 <= k < |blocks| ==> Holds(Merge(blocks, outcomes), blocks[k], outcomes[k].words)
    decreases |blocks|
  {
    if blocks != [] {
      var n := |blocks| - 1;
      PrefixReads(blocks, outcomes);
      MergeValues(blocks[..n], outcomes[..n]);
      forall k | 0 <= k < |blocks|
        ensures Holds(Merge(blocks, outcomes), blocks[k], outcomes[k].words)
      {
        if k < n {
          EarlierHolds(blocks, outcomes, k);
        } else {
          LastHolds(blocks, outcomes);
        }
      }
    }
  }

  lemma PrefixReads(blocks: seq<Block>, outcomes: seq<ReadOutcome>)
    requires FullReads(blocks, outcomes) && Ascending(blocks) && blocks != []
    ensures FullReads(blocks[..|blocks| - 1], outcomes[..|blocks| - 1])
    ensures Ascending(blocks[..|blocks| - 1])
  {
  }

  /** The last block's words are stored at its registers. */
  lemma LastHolds(blocks: seq<Block>, outcomes: seq<ReadOutcome>)
    requires FullReads(blocks, outcomes) && blocks != []
    ensures Holds(Merge(blocks, outcomes), blocks[|blocks| - 1], outcomes[|blocks| - 1].words)
  {
  }

  /** Storing the last block leaves each earlier block as the earlier reads left it. */
  lemma EarlierHolds(blocks: seq<Block>, outcomes: seq<ReadOutcome>, k: nat)
    requires FullReads(blocks, outcomes) && Ascending(blocks) && k < |blocks| - 1
    requires FullReads(blocks[..|blocks| - 1], outcomes[..|blocks| - 1])
    requires Holds(Merge(blocks[..|blocks| - 1], outcomes[..|blocks| - 1]), blocks[..|blocks| - 1][k], outcomes[..|blocks| - 1][k].words)
    ensures Holds(Merge(blocks, outcomes), blocks[k], outcomes[k].words)
  {
    var n := |blocks| - 1;
    assert blocks[..n][k] == blocks[k] && outcomes[..n][k] == outcomes[k];
    assert End(blocks[k]) < blocks[n].start;
    HoldsAfterFill(Merge(blocks[..n], outcomes[..n]), blocks[k], outcomes[k].words, blocks[n].start, outcomes[n].words);
  }

  /**
   * After a poll whose every read returned a full block, every address of the
   * register map is in the polled data, holding the word its block returned;
   * and every key of the polled data lies in some block of the plan.
   */
  lemma PolledAddressesPresent(c: WanasCoordinator, outcomes: seq<ReadOutcome>)
    requires c.Valid() && FullReads(c.readBlocks, outcomes)
    ensures forall a :: a in AddressSet(c.registers) ==>
      var k := BlockIndex(c.readBlocks, a);
      && k < |c.readBlocks|
      && a in Merge(c.readBlocks, outcomes)
      && Merge(c.readBlocks, outcomes)[a] == outcomes[k].words[a - c.readBlocks[k].start]
    ensures forall a :: a in Merge(c.readBlocks, outcomes) ==> BlockIndex(c.readBlocks, a) < |c.readBlocks|
  {
    var B := c.readBlocks;
    forall a | a in AddressSet(c.registers)
      ensures var k := BlockIndex(B, a);
        && k < |B|
        && a in Merge(B, outcomes)
        && Merge(B, outcomes)[a] == outcomes[k].words[a - B[k].start]
    {
      PlannedCovered(c, a);
      CoveredPresent(B, outcomes, a);
    }
    MergedPlanned(B, outcomes);
  }

  /** Every address of the register map lies in a block of the coordinator's plan, and the plan ascends. */
  lemma PlannedCovered(c: WanasCoordinator, a: int)
    requires c.Valid() && a in AddressSet(c.registers)
    ensures BlockIndex(c.readBlocks, a) < |c.readBlocks|
    ensures Ascending(c.readBlocks)
  {
    assert a in Elems(c.plannedAddresses);
    PlanCoverage(c.plannedAddresses, MAX_GAP);
    PlanShape(c.plannedAddresses, MAX_GAP);
  }

  /** A register inside some block is in the polled data, with the word its block returned. */
  lemma CoveredPresent(B: seq<Block>, outcomes: seq<ReadOutcome>, a: int)
    requires FullReads(B, outcomes) && Ascending(B) && BlockIndex(B, a) < |B|
    ensures var k := BlockIndex(B, a);
      && a in Merge(B, outcomes)
      && Merge(B, outcomes)[a] == outcomes[k].words[a - B[k].start]
  {
    var k := BlockIndex(B, a);
    MergeValues(B, outcomes);
    assert Holds(Merge(B, outcomes), B[k], outcomes[k].words);
  }

  lemma MergedPlanned(B: seq<Block>, outcomes: seq<ReadOutcome>)
    requires FullReads(B, outcomes)
    ensures forall a :: a in Merge(B, outcomes) ==> BlockIndex(B, a) < |B|
  {
    forall a | a in Merge(B, outcomes)
      ensures BlockIndex(B, a) < |B|
    {
      MergeKeysFull(B, outcomes, a);
    }
  }
}

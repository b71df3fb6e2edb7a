/**
 * `WanasSwitch` of `switch.py`: a switch writes its on or off value to its
 * write register and reports its state from its verify register. Both
 * addresses come from the coordinator's register map, with the description's
 * addresses as the fallback.
 */
module Switch {
  import opened Wrappers
  import opened Const
  import opened Codec
  import opened Coordinator

  /** `_write_address`: the map's `<key>_write_address` entry, else the description's address. */
  function WriteAddress(registers: map<string, RegValue>, d: SwitchDescription): RegValue {
    if WriteKey(d.key) in registers then registers[WriteKey(d.key)] else Addr(d.writeAddress)
  }

  /** `_verify_address`: the map's `<key>_verify_address` entry, else the description's address. */
  function VerifyAddress(registers: map<string, RegValue>, d: SwitchDescription): RegValue {
    if VerifyKey(d.key) in registers then registers[VerifyKey(d.key)] else Addr(d.verifyAddress)
  }

  /**
   * `is_on`: unknown before the first poll and when the verify register is
   * not in the polled data; otherwise on exactly when it differs from the
   * off value.
   */
  function IsOn(data: Option<Snapshot>, registers: map<string, RegValue>, d: SwitchDescription)
    : (r: Option<bool>)
    ensures r == None <==>
      data == None || !(VerifyAddress(registers, d).Addr? && VerifyAddress(registers, d).address in data.value)
    ensures r != None ==> (r.value <==> data.value[VerifyAddress(registers, d).address] != d.offValue)
  {
    if data == None then None
    else
      match VerifyAddress(registers, d)
      case Addr(a) => if a in data.value then Some(data.value[a] != d.offValue) else None
      case Text(_) => None
  }

  /**
   * `async_turn_on`: writes the on value to the effective write address and
   * to no other register. The outcome is that of `async_write_register`: a
   * refresh exactly when nothing was raised.
   */
  method TurnOn(c: WanasCoordinator, d: SwitchDescription, connect: ConnectOutcome, write: WriteOutcome)
    returns (raised: Option<UpdateFailed>)
    modifies c`client, c`sent, c`refreshRequests
    ensures (raised == None) <==> (c.refreshRequests == old(c.refreshRequests) + 1)
    ensures raised != None ==> c.refreshRequests == old(c.refreshRequests)
    ensures old(c.client) == Connected || connect == ConnectOk ==>
      && c.sent == old(c.sent) + [WriteRequest(WriteAddress(c.registers, d), d.onValue)]
      && (write == WriteOk ==> raised == None && c.client == Connected)
      && (write == WriteErrorResponse ==> raised == Some(WriteFailed(WriteAddress(c.registers, d))) && c.client == Connected)
      && (write == WriteRaised ==> raised == Some(WriteError) && c.client == NoClient)
    ensures old(c.client) != Connected && connect == ConnectRefused ==>
      raised == Some(ConnectFailed) && c.client == Disconnected && c.sent == old(c.sent)
    ensures old(c.client) != Connected && connect == ConnectRaised ==>
      raised == Some(WriteError) && c.client == NoClient && c.sent == old(c.sent)
  {
    raised := c.AsyncWriteRegister(WriteAddress(c.registers, d), d.onValue, connect, write);
  }

  /**
   * `async_turn_off`: writes the off value to the effective write address and
   * to no other register. The outcome is that of `async_write_register`: a
   * refresh exactly when nothing was raised.
   */
  method TurnOff(c: WanasCoordinator, d: SwitchDescription, connect: ConnectOutcome, write: WriteOutcome)
    returns (raised: Option<UpdateFailed>)
    modifies c`client, c`sent, c`refreshRequests
    ensures (raised == None) <==> (c.refreshRequests == old(c.refreshRequests) + 1)
    ensures raised != None ==> c.refreshRequests == old(c.refreshRequests)
    ensures old(c.client) == Connected || connect == ConnectOk ==>
      && c.sent == old(c.sent) + [WriteRequest(WriteAddress(c.registers, d), d.offValue)]
      && (write == WriteOk ==> raised == None && c.client == Connected)
      && (write == WriteErrorResponse ==> raised == Some(WriteFailed(WriteAddress(c.registers, d))) && c.client == Connected)
      && (write == WriteRaised ==> raised == Some(WriteError) && c.client == NoClient)
    ensures old(c.client) != Connected && connect == ConnectRefused ==>
      raised == Some(ConnectFailed) && c.client == Disconnected && c.sent == old(c.sent)
    ensures old(c.client) != Connected && connect == ConnectRaised ==>
      raised == Some(WriteError) && c.client == NoClient && c.sent == old(c.sent)
  {
    raised := c.AsyncWriteRegister(WriteAddress(c.registers, d), d.offValue, connect, write);
  }

  /**
   * For a catalog switch the map always has both keys, so the fallback never
   * applies: an option wins, otherwise the catalog address is used.
   */
  lemma CatalogSwitchAddresses(overrides: map<string, RegValue>, i: nat)
    requires i < |SWITCH_DESCRIPTIONS|
    ensures var registers := EffectiveRegisters(DefaultRegisters(), overrides);
      var d := SWITCH_DESCRIPTIONS[i];
      && WriteKey(d.key) in registers && VerifyKey(d.key) in registers
      && WriteAddress(registers, d)
        == (if WriteKey(d.key) in overrides then overrides[WriteKey(d.key)] else Addr(d.writeAddress))
      && VerifyAddress(registers, d)
        == (if VerifyKey(d.key) in overrides then overrides[VerifyKey(d.key)] else Addr(d.verifyAddress))
  {
    DefaultRegistersSpec();
  }

  /**
   * Reading back what `async_turn_on` wrote reports on, and what
   * `async_turn_off` wrote reports off, for a switch whose values differ and
   * fit a register.
   */
  lemma ReadBack(data: Snapshot, registers: map<string, RegValue>, d: SwitchDescription, a: int)
    requires VerifyAddress(registers, d) == Addr(a)
    requires 0 <= d.onValue < WORD_SPAN && 0 <= d.offValue < WORD_SPAN && d.onValue != d.offValue
    ensures IsOn(Some(data[a := d.onValue]), registers, d) == Some(true)
    ensures IsOn(Some(data[a := d.offValue]), registers, d) == Some(false)
  {
  }

  /** Every catalog switch fits a register and has distinct on and off values. */
  lemma CatalogSwitchesReadBack()
    ensures forall d :: d in SWITCH_DESCRIPTIONS ==>
      0 <= d.onValue < WORD_SPAN && 0 <= d.offValue < WORD_SPAN && d.onValue != d.offValue
  {
    CatalogSwitchValues();
  }

  /**
   * After a poll in which every block returned in full, a catalog switch
   * whose verify address is an int knows its state, read from the word its
   * block returned.
   */
  lemma IsOnAfterPoll(c: WanasCoordinator, outcomes: seq<ReadOutcome>, i: nat)
    requires c.Valid() && FullReads(c.readBlocks, outcomes)
    requires i < |SWITCH_DESCRIPTIONS|
    requires VerifyKey(SWITCH_DESCRIPTIONS[i].key) in c.registers
    requires c.registers[VerifyKey(SWITCH_DESCRIPTIONS[i].key)].Addr?
    ensures var d := SWITCH_DESCRIPTIONS[i];
      var a := c.registers[VerifyKey(d.key)].address;
      var data := Merge(c.readBlocks, outcomes);
      a in data && IsOn(Some(data), c.registers, d) == Some(data[a] != d.offValue)
  {
    AddressKeysPlanned(c.registers, SWITCH_DESCRIPTIONS[i].key);
    PolledAddressesPresent(c, outcomes);
  }
}

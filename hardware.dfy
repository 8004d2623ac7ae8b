/**
 * The register layer of an SPI radio chip (hardware.go). A Hardware value
 * owns the SPI device and the interrupt line of one chip and latches the
 * outcome of its last bus call in `err`. Reads are guarded: once `err` is
 * set they return 0 or nothing and leave the bus alone. Writes are not:
 * they always reach the bus and overwrite `err` with their own outcome.
 */
module Hardware {
  import opened Wrappers
  import opened Ints
  import opened Format
  import opened Peripherals

  /** A chip's identification register did not hold the expected version. */
  datatype HardwareVersionError = HardwareVersionError(actual: uint16, expected: uint16) {
    /** "unexpected hardware version %04X (should be %04X)": always 49 characters. */
    function Error(): (r: string)
      ensures |r| == |VersionPrefix| + 4 + |VersionMiddle| + 4 + 1 == 49
    {
      Hex4RoundTrip(actual);
      Hex4RoundTrip(expected);
      VersionPrefix + Hex4(actual) + VersionMiddle + Hex4(expected) + ")"
    }
  }

  const VersionPrefix: string := "unexpected hardware version "
  const VersionMiddle: string := " (should be "

  /** The %04X verb. */
  function Hex4(v: uint16): string {
    PadLeft(Digits(v, 16), 4, '0')
  }

  /**
   * Reads back the two versions of a message that HardwareVersionError.Error
   * printed: the prefix, four hex digits, the middle part, four hex digits
   * and a closing parenthesis.
   */
  function ParseVersionError(msg: string): Option<HardwareVersionError> {
    var i := |VersionPrefix|;
    var j := i + 4;
    var k := j + |VersionMiddle|;
    var l := k + 4;
    if |msg| == l + 1 && msg[..i] == VersionPrefix && msg[j..k] == VersionMiddle && msg[l..] == ")"
       && AllDigits(msg[i..j], 16) && AllDigits(msg[k..l], 16)
    then
      var actual, expected := Parse(msg[i..j], 16), Parse(msg[k..l], 16);
      if actual < 0x1_0000 && expected < 0x1_0000 then Some(HardwareVersionError(actual, expected)) else None
    else None
  }

  /**
   * The message has 49 characters; both versions are printed as exactly four
   * upper-case hex digits, right after the prefix and right after the middle
   * part, and ParseVersionError reads them back.
   */
  lemma VersionErrorRoundTrip(e: HardwareVersionError)
    ensures |e.Error()| == |VersionPrefix| + 4 + |VersionMiddle| + 4 + 1 == 49
    ensures var i, k := |VersionPrefix|, |VersionPrefix| + 4 + |VersionMiddle|;
      e.Error()[i..i + 4] == Hex4(e.actual) && e.Error()[k..k + 4] == Hex4(e.expected)
    ensures ParseVersionError(e.Error()) == Some(e)
  {
    var a, b := Hex4(e.actual), Hex4(e.expected);
    Hex4RoundTrip(e.actual);
    Hex4RoundTrip(e.expected);
    assert |VersionPrefix| == 28 && |VersionMiddle| == 12;
    MessageFields(VersionPrefix, a, VersionMiddle, b, ")");
    ParseFields(a, b, e.actual, e.expected);
  }

  lemma ParseFields(a: string, b: string, actual: uint16, expected: uint16)
    requires |a| == 4 && AllDigits(a, 16) && Parse(a, 16) == actual
    requires |b| == 4 && AllDigits(b, 16) && Parse(b, 16) == expected
    ensures ParseVersionError(VersionPrefix + a + VersionMiddle + b + ")") == Some(HardwareVersionError(actual, expected))
  {
    MessageFields(VersionPrefix, a, VersionMiddle, b, ")");
  }

  /** %04X of a uint16 is four hex digits that parse back to it. */
  lemma Hex4RoundTrip(v: uint16)
    ensures |Hex4(v)| == 4 && AllDigits(Hex4(v), 16) && Parse(Hex4(v), 16) == v
  {
    assert Pow(16, 4) == 0x1_0000;
    ZeroPaddedRoundTrip(v, 16, 4);
  }

  /** Where the fields of a five-part message sit. */
  lemma MessageFields(p: string, a: string, m: string, b: string, z: string)
    ensures var msg := p + a + m + b + z;
      var i, j, k := |p| + |a|, |p| + |a| + |m|, |p| + |a| + |m| + |b|;
      && |msg| == k + |z|
      && msg[..|p|] == p && msg[|p|..i] == a && msg[i..j] == m && msg[j..k] == b && msg[k..] == z
  {
  }

  /**
   * A Go error value held in the latch. The latch holds whatever error a bus
   * call returned or a caller passed to SetError (a driver's
   * HardwareVersionError, say); `reason` is its message.
   */
  datatype Fault = BusFault(reason: string)

  /**
   * A HardwareFlavor: where the chip sits on the bus and how it encodes a
   * register address for the four kinds of access.
   */
  datatype HardwareFlavor = HardwareFlavor(
    spiDevice: string,
    speed: int,
    customCS: int,
    interruptPin: int,
    readSingleAddress: byte -> byte,
    readBurstAddress: byte -> byte,
    writeSingleAddress: byte -> byte,
    writeBurstAddress: byte -> byte)

  /** The bus calls WriteEach makes for `data`: one single write per (address, value) pair, in order. */
  function PairWrites(flavor: HardwareFlavor, data: seq<byte>): seq<BusOp>
    requires |data| % 2 == 0
  {
    if data == [] then []
    else [Written([flavor.writeSingleAddress(data[0]), data[1]])] + PairWrites(flavor, data[2..])
  }

  /** WriteEach makes |data|/2 writes, the j-th for the j-th pair. */
  lemma {:induction false} PairWritesAt(flavor: HardwareFlavor, data: seq<byte>)
    requires |data| % 2 == 0
    ensures |PairWrites(flavor, data)| == |data| / 2
    ensures forall j | 0 <= j < |data| / 2 ::
      PairWrites(flavor, data)[j] == Written([flavor.writeSingleAddress(data[2 * j]), data[2 * j + 1]])
  {
    if data != [] {
      PairWritesAt(flavor, data[2..]);
      forall j | 1 <= j < |data| / 2
        ensures PairWrites(flavor, data)[j] == Written([flavor.writeSingleAddress(data[2 * j]), data[2 * j + 1]])
      {
        assert PairWrites(flavor, data)[j] == PairWrites(flavor, data[2..])[j - 1];
        assert data[2..][2 * (j - 1)] == data[2 * j];
      }
    }
  }

  /** Writing the pairs of a prefix, then one more pair, is writing the pairs of the longer prefix. */
  lemma {:induction false} PairWritesSnoc(flavor: HardwareFlavor, data: seq<byte>, i: nat)
    requires i % 2 == 0 && i + 2 <= |data|
    ensures PairWrites(flavor, data[..i + 2])
         == PairWrites(flavor, data[..i]) + [Written([flavor.writeSingleAddress(data[i]), data[i + 1]])]
    decreases i
  {
    if i == 0 {
      assert data[..2][2..] == [];
    } else {
      assert data[..i + 2][2..] == data[2..][..i];
      assert data[..i][2..] == data[2..][..i - 2];
      PairWritesSnoc(flavor, data[2..], i - 2);
    }
  }

  /** The three set-up calls of Open, in order. */
  function OpenSteps(flavor: HardwareFlavor): seq<BusOp> {
    [ SpiOpened(flavor.spiDevice, flavor.speed, flavor.customCS),
      MaxSpeedSet(flavor.speed),
      InterruptConfigured(flavor.interruptPin, false, "rising") ]
  }

  /** The outcome of the (j+1)-th of `steps`, issued one after another after `log`. */
  function StepOutcome<E>(oracle: Oracle<E>, log: seq<BusOp>, steps: seq<BusOp>, j: nat): Option<E>
    requires j < |steps|
  {
    oracle.outcome(log + steps[..j + 1])
  }

  /** How many of `steps`, issued one after another after `log`, succeed before the first that fails. */
  function Succeeding<E>(oracle: Oracle<E>, log: seq<BusOp>, steps: seq<BusOp>): (k: nat)
    ensures k <= |steps|
    ensures forall j | 0 <= j < k :: StepOutcome(oracle, log, steps, j).None?
    ensures k < |steps| ==> StepOutcome(oracle, log, steps, k).Some?
    decreases |steps|
  {
    if steps == [] then 0
    else if oracle.outcome(log + steps[..1]).Some? then 0
    else
      var k := 1 + Succeeding(oracle, log + steps[..1], steps[1..]);
      assert StepOutcome(oracle, log, steps, 0).None?;
      assert forall j | 1 <= j < |steps| ::
        StepOutcome(oracle, log, steps, j) == StepOutcome(oracle, log + steps[..1], steps[1..], j - 1)
      by {
        forall j | 1 <= j < |steps|
          ensures StepOutcome(oracle, log, steps, j) == StepOutcome(oracle, log + steps[..1], steps[1..], j - 1)
        {
          assert log + steps[..1] + steps[1..][..j] == log + steps[..j + 1];
        }
      }
      k
  }

  class Hardware {
    const flavor: HardwareFlavor
    const bus: Bus<Fault>
    var err: Option<Fault>

    /** &Hardware{flavor: flavor}: no error latched yet. */
    constructor (flavor: HardwareFlavor, bus: Bus<Fault>)
      ensures this.flavor == flavor && this.bus == bus && err == None
    {
      this.flavor := flavor;
      this.bus := bus;
      err := None;
    }

    method Error() returns (e: Option<Fault>)
      ensures e == err
    {
      e := err;
    }

    /** The only way to clear the latch and let reads reach the bus again. */
    method SetError(e: Option<Fault>)
      modifies this
      ensures err == e
    {
      err := e;
    }

    /** Waits for a receive interrupt; latches the wait's outcome. */
    method AwaitInterrupt(timeout: int)
      modifies this, bus
      ensures bus.log == old(bus.log) + [InterruptAwaited(timeout)]
      ensures err == bus.oracle.outcome(bus.log)
    {
      err := bus.Wait(timeout);
    }

    /** Reads the level of the interrupt line; latches the read's outcome. */
    method ReadInterrupt() returns (high: bool)
      modifies this, bus
      ensures bus.log == old(bus.log) + [InterruptRead]
      ensures high == bus.oracle.level(bus.log) && err == bus.oracle.outcome(bus.log)
    {
      high, err := bus.Read();
    }

    /** Closes the SPI device; its outcome replaces whatever was latched. */
    method Close()
      modifies this, bus
      ensures bus.log == old(bus.log) + [SpiClosed]
      ensures err == bus.oracle.outcome(bus.log)
    {
      err := bus.Close();
    }

    /**
     * Guarded read of one register: no bus traffic once faulted; otherwise
     * one two-byte transfer, whose second byte is returned even when the
     * transfer failed.
     */
    method ReadRegister(addr: byte) returns (v: byte)
      modifies this, bus
      ensures old(err).Some? ==> v == 0 && err == old(err) && bus.log == old(bus.log)
      ensures old(err).None? ==>
        && bus.log == old(bus.log) + [Transferred([flavor.readSingleAddress(addr), 0])]
        && err == bus.oracle.outcome(bus.log)
        && v == Fit(bus.oracle.response(bus.log), 2)[1]
    {
      if err.Some? {
        return 0;
      }
      var buf := new byte[] [flavor.readSingleAddress(addr), 0];
      assert buf[..] == [flavor.readSingleAddress(addr), 0];
      err := bus.Transfer(buf);
      v := buf[1];
    }

    /**
     * Guarded burst read of n registers: no bus traffic once faulted;
     * otherwise one transfer of the burst address and n zeros, whose
     * response minus its first byte is returned.
     */
    method ReadBurst(addr: byte, n: int) returns (data: seq<byte>)
      requires err.None? ==> 0 <= n
      modifies this, bus
      ensures old(err).Some? ==> data == [] && err == old(err) && bus.log == old(bus.log)
      ensures old(err).None? ==>
        && bus.log == old(bus.log) + [Transferred([flavor.readBurstAddress(addr)] + Zeros(n))]
        && err == bus.oracle.outcome(bus.log)
        && |data| == n
        && data == Fit(bus.oracle.response(bus.log), n + 1)[1..]
    {
      if err.Some? {
        return [];
      }
      var buf := new byte[n + 1](_ => 0);
      buf[0] := flavor.readBurstAddress(addr);
      assert buf[..] == [flavor.readBurstAddress(addr)] + Zeros(n);
      err := bus.Transfer(buf);
      data := buf[1..];
    }

    /** Unconditional single write: reaches the bus whatever is latched. */
    method WriteRegister(addr: byte, value: byte)
      modifies this, bus
      ensures bus.log == old(bus.log) + [Written([flavor.writeSingleAddress(addr), value])]
      ensures err == bus.oracle.outcome(bus.log)
    {
      err := bus.Write([flavor.writeSingleAddress(addr), value]);
    }

    /** Unconditional burst write of the burst address followed by the data, unchanged. */
    method WriteBurst(addr: byte, data: seq<byte>)
      modifies this, bus
      ensures bus.log == old(bus.log) + [Written([flavor.writeBurstAddress(addr)] + data)]
      ensures err == bus.oracle.outcome(bus.log)
    {
      err := bus.Write([flavor.writeBurstAddress(addr)] + data);
    }

    /**
     * Writes each (address, value) pair of `data` in order. An odd length is
     * a caller bug (the source panics), hence a precondition. Only the last
     * write's outcome stays latched.
     */
    method WriteEach(data: seq<byte>)
      requires |data| % 2 == 0
      modifies this, bus
      ensures bus.log == old(bus.log) + PairWrites(flavor, data)
      ensures data == [] ==> err == old(err)
      ensures data != [] ==> err == bus.oracle.outcome(bus.log)
    {
      var n := |data|;
      var i := 0;
      while i < n
        invariant 0 <= i <= n && i % 2 == 0
        invariant bus.log == old(bus.log) + PairWrites(flavor, data[..i])
        invariant i == 0 ==> err == old(err)
        invariant i > 0 ==> err == bus.oracle.outcome(bus.log)
      {
        PairWritesSnoc(flavor, data, i);
        WriteRegister(data[i], data[i + 1]);
        i := i + 2;
      }
      assert data[..n] == data;
    }
  }

  /**
   * Open as written: open the SPI device, set its speed, configure the
   * interrupt line, stopping at the first failure. After a failed speed or
   * interrupt step the device is closed, and Close's outcome replaces the
   * failing step's error.
   */
  method Open(flavor: HardwareFlavor, bus: Bus<Fault>) returns (h: Hardware)
    modifies bus
    ensures fresh(h) && h.flavor == flavor && h.bus == bus
    ensures var k := Succeeding(bus.oracle, old(bus.log), OpenSteps(flavor));
      && (k == 0 ==> bus.log == old(bus.log) + OpenSteps(flavor)[..1] && h.err == bus.oracle.outcome(bus.log))
      && (0 < k < 3 ==> bus.log == old(bus.log) + OpenSteps(flavor)[..k + 1] + [SpiClosed]
                        && h.err == bus.oracle.outcome(bus.log))
      && (k == 3 ==> bus.log == old(bus.log) + OpenSteps(flavor) && h.err == None)
  {
    ghost var steps, log0 := OpenSteps(flavor), bus.log;
    h := new Hardware(flavor, bus);
    h.err := bus.Open(flavor.spiDevice, flavor.speed, flavor.customCS);
    assert bus.log == log0 + steps[..1];
    assert h.err == StepOutcome(bus.oracle, log0, steps, 0);
    if h.err.Some? {
      return;
    }
    h.err := bus.SetMaxSpeed(flavor.speed);
    assert bus.log == log0 + steps[..2];
    assert h.err == StepOutcome(bus.oracle, log0, steps, 1);
    if h.err.Some? {
      h.Close();
      return;
    }
    h.err := bus.ConfigureInterrupt(flavor.interruptPin, false, "rising");
    assert bus.log == log0 + steps[..3];
    assert h.err == StepOutcome(bus.oracle, log0, steps, 2);
    if h.err.Some? {
      h.Close();
      return;
    }
  }

  /**
   * Open as evidently intended: the same calls, but a failing step's error
   * stays latched after the device is closed, so Error() is set exactly
   * when some step failed.
   */
  method OpenKeepingFault(flavor: HardwareFlavor, bus: Bus<Fault>) returns (h: Hardware)
    modifies bus
    ensures fresh(h) && h.flavor == flavor && h.bus == bus
    ensures var k := Succeeding(bus.oracle, old(bus.log), OpenSteps(flavor));
      && (k == 0 ==> bus.log == old(bus.log) + OpenSteps(flavor)[..1])
      && (0 < k < 3 ==> bus.log == old(bus.log) + OpenSteps(flavor)[..k + 1] + [SpiClosed])
      && (k == 3 ==> bus.log == old(bus.log) + OpenSteps(flavor))
      && (h.err.Some? <==> k < 3)
      && (k < 3 ==> h.err == StepOutcome(bus.oracle, old(bus.log), OpenSteps(flavor), k))
  {
    ghost var steps, log0 := OpenSteps(flavor), bus.log;
    h := new Hardware(flavor, bus);
    h.err := bus.Open(flavor.spiDevice, flavor.speed, flavor.customCS);
    assert bus.log == log0 + steps[..1];
    assert h.err == StepOutcome(bus.oracle, log0, steps, 0);
    if h.err.Some? {
      return;
    }
    h.err := bus.SetMaxSpeed(flavor.speed);
    assert bus.log == log0 + steps[..2];
    assert h.err == StepOutcome(bus.oracle, log0, steps, 1);
    if h.err.Some? {
      var stepErr := h.err;
      h.Close();
      h.err := stepErr;
      return;
    }
    h.err := bus.ConfigureInterrupt(flavor.interruptPin, false, "rising");
    assert bus.log == log0 + steps[..3];
    assert h.err == StepOutcome(bus.oracle, log0, steps, 2);
    if h.err.Some? {
      var stepErr := h.err;
      h.Close();
      h.err := stepErr;
      return;
    }
  }

  /** A bus on which setting the speed fails and every other call succeeds. */
  function SpeedFaultOracle(): Oracle<Fault> {
    Oracle(log => if |log| == 2 then Some(BusFault("set speed")) else None, log => [], log => false)
  }

  /** Under SpeedFaultOracle the speed step is the first to fail, and the Close after it succeeds. */
  lemma SpeedFaultThenCleanClose(flavor: HardwareFlavor)
    ensures Succeeding(SpeedFaultOracle(), [], OpenSteps(flavor)) == 1
    ensures SpeedFaultOracle().outcome(OpenSteps(flavor)[..2]) == Some(BusFault("set speed"))
    ensures SpeedFaultOracle().outcome(OpenSteps(flavor)[..2] + [SpiClosed]) == None
  {
    var o, steps := SpeedFaultOracle(), OpenSteps(flavor);
    assert StepOutcome(o, [], steps, 0) == None;
    assert StepOutcome(o, [], steps, 1) == Some(BusFault("set speed"));
  }

  /**
   * Open as written reports no error although setting the speed failed and
   * the device has been closed again.
   */
  method OpenHidesSpeedFault(flavor: HardwareFlavor) returns (h: Hardware)
    ensures h.bus.log == OpenSteps(flavor)[..2] + [SpiClosed]
    ensures h.bus.oracle.outcome(OpenSteps(flavor)[..2]) == Some(BusFault("set speed"))
    ensures h.err == None
  {
    var bus := new Bus(SpeedFaultOracle());
    SpeedFaultThenCleanClose(flavor);
    h := Open(flavor, bus);
  }

  /** OpenKeepingFault, on the same bus, reports the speed step's error. */
  method OpenKeepingFaultReportsSpeedFault(flavor: HardwareFlavor) returns (h: Hardware)
    ensures h.bus.log == OpenSteps(flavor)[..2] + [SpiClosed]
    ensures h.err == Some(BusFault("set speed"))
  {
    var bus := new Bus(SpeedFaultOracle());
    SpeedFaultThenCleanClose(flavor);
    h := OpenKeepingFault(flavor, bus);
  }

  /**
   * A latched fault short-circuits reads while writes still go out, and
   * clearing the latch lets the next read reach the bus again.
   */
  method LatchScenario(h: Hardware, addr: byte, value: byte)
    requires h.err.Some?
    modifies h, h.bus
    ensures h.bus.log == old(h.bus.log)
      + [Written([h.flavor.writeSingleAddress(addr), value]), Transferred([h.flavor.readSingleAddress(addr), 0])]
  {
    var v := h.ReadRegister(addr);
    assert v == 0 && h.bus.log == old(h.bus.log);
    h.WriteRegister(addr, value);
    h.SetError(None);
    v := h.ReadRegister(addr);
  }
}

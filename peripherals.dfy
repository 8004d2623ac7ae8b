/**
 * Stand-in for the SPI bus and GPIO packages the hardware layer calls.
 * Their code is not part of this model: every call is recorded in `log`,
 * and its outcome (ok or an error, the bytes a transfer shifts in, the
 * level of the interrupt line) is whatever `oracle` says for the log that
 * ends with that call. Since the oracle may be any function of the history,
 * every behaviour of the real device is one of the oracles.
 */
module Peripherals {
  import opened Wrappers
  import opened Ints

  /** One call into the SPI or GPIO package, with the bytes it sent. */
  datatype BusOp =
    | SpiOpened(path: string, speed: int, cs: int)
    | MaxSpeedSet(speed: int)
    | Transferred(sent: seq<byte>)
    | Written(sent: seq<byte>)
    | SpiClosed
    | InterruptConfigured(pin: int, activeLow: bool, edge: string)
    | InterruptAwaited(timeout: int)
    | InterruptRead

  /** Outcome of the last call of a log, for error type E. */
  datatype Oracle<E> = Oracle(
    outcome: seq<BusOp> -> Option<E>,
    response: seq<BusOp> -> seq<byte>,
    level: seq<BusOp> -> bool)

  function Zeros(n: nat): (z: seq<byte>)
    ensures |z| == n && forall i | 0 <= i < n :: z[i] == 0
  {
    seq(n, _ => 0)
  }

  /** The oracle's response cut or zero-extended to the `n` bytes a transfer exchanges. */
  function Fit(response: seq<byte>, n: nat): (r: seq<byte>)
    ensures |r| == n
    ensures forall i | 0 <= i < n && i < |response| :: r[i] == response[i]
    ensures forall i | |response| <= i < n :: r[i] == 0
  {
    if n <= |response| then response[..n] else response + Zeros(n - |response|)
  }

  class Bus<E> {
    const oracle: Oracle<E>
    var log: seq<BusOp>

    constructor (oracle: Oracle<E>)
      ensures this.oracle == oracle && log == []
    {
      this.oracle := oracle;
      log := [];
    }

    /** spi.Open(path, speed, cs). */
    method Open(path: string, speed: int, cs: int) returns (err: Option<E>)
      modifies this
      ensures log == old(log) + [SpiOpened(path, speed, cs)]
      ensures err == oracle.outcome(log)
    {
      log := log + [SpiOpened(path, speed, cs)];
      err := oracle.outcome(log);
    }

    /** device.SetMaxSpeed(speed). */
    method SetMaxSpeed(speed: int) returns (err: Option<E>)
      modifies this
      ensures log == old(log) + [MaxSpeedSet(speed)]
      ensures err == oracle.outcome(log)
    {
      log := log + [MaxSpeedSet(speed)];
      err := oracle.outcome(log);
    }

    /** device.Transfer(buf): shifts buf out and overwrites it in place with the bytes shifted in. */
    method Transfer(buf: array<byte>) returns (err: Option<E>)
      modifies this, buf
      ensures log == old(log) + [Transferred(old(buf[..]))]
      ensures buf[..] == Fit(oracle.response(log), buf.Length)
      ensures err == oracle.outcome(log)
    {
      log := log + [Transferred(buf[..])];
      var reply := Fit(oracle.response(log), buf.Length);
      forall i | 0 <= i < buf.Length {
        buf[i] := reply[i];
      }
      err := oracle.outcome(log);
    }

    /** device.Write(buf). */
    method Write(buf: seq<byte>) returns (err: Option<E>)
      modifies this
      ensures log == old(log) + [Written(buf)]
      ensures err == oracle.outcome(log)
    {
      log := log + [Written(buf)];
      err := oracle.outcome(log);
    }

    /** device.Close(). */
    method Close() returns (err: Option<E>)
      modifies this
      ensures log == old(log) + [SpiClosed]
      ensures err == oracle.outcome(log)
    {
      log := log + [SpiClosed];
      err := oracle.outcome(log);
    }

    /** gpio.Interrupt(pin, activeLow, edge). */
    method ConfigureInterrupt(pin: int, activeLow: bool, edge: string) returns (err: Option<E>)
      modifies this
      ensures log == old(log) + [InterruptConfigured(pin, activeLow, edge)]
      ensures err == oracle.outcome(log)
    {
      log := log + [InterruptConfigured(pin, activeLow, edge)];
      err := oracle.outcome(log);
    }

    /** interrupt.Wait(timeout). */
    method Wait(timeout: int) returns (err: Option<E>)
      modifies this
      ensures log == old(log) + [InterruptAwaited(timeout)]
      ensures err == oracle.outcome(log)
    {
      log := log + [InterruptAwaited(timeout)];
      err := oracle.outcome(log);
    }

    /** interrupt.Read(). */
    method Read() returns (high: bool, err: Option<E>)
      modifies this
      ensures log == old(log) + [InterruptRead]
      ensures high == oracle.level(log) && err == oracle.outcome(log)
    {
      log := log + [InterruptRead];
      high, err := oracle.level(log), oracle.outcome(log);
    }
  }
}

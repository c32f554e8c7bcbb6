/** A node's contact (BranlyContact.h and BranlyContact.cpp): one sensor or
    actuator channel with a value, an optional lower threshold, and a report
    countdown that the node ticks down between sleeps. The value callback
    (mValueFunc) and the radio are outside the model: what they return is
    chosen nondeterministically. */
module BranlyContact {
  import opened Common
  import opened BranlyProtocol

  /** ContactType_t */
  const TypeTemperature: nat := 1
  const TypeVoltage: nat := 2
  const TypeWattUsage: nat := 3
  const TypeHumidity: nat := 4
  const TypeLDR: nat := 5
  const TypeMotion: nat := 6
  const TypeButton: nat := 7
  const TypePowerSwitch: nat := 8
  const TypeLight: nat := 9
  const TypeRGBLight: nat := 10
  const UserDefined: nat := 100

  /** kReportingIntervalNone: the contact only reports when enqueued. */
  const ReportingIntervalNone: ulong := 0

  /** valueSize: one byte for values strictly between -128 and 128, four
      bytes for everything else. */
  function ValueSize(value: long): ContactSize
  {
    if value < 128 && value > -128 then Size8 else Size32
  }

  /** `(char) b`: a byte read as a signed char. */
  function SignedChar(b: byte): int
  {
    if b < 0x80 then b else b - 0x100
  }

  /** `(long) u`: a 32-bit pattern read as a signed long. */
  function SignedLong(u: ulong): int
  {
    if u < 0x8000_0000 then u else u - 0x1_0000_0000
  }

  /** The size valueSize picks never loses the value: one byte is chosen
      exactly when `(char) value` gives the value back, except for -128,
      which would fit but is sent in four bytes; four bytes always give it
      back. */
  lemma ValueSizeLossless(value: long)
    ensures ValueSize(value) == Size8 <==> SignedChar(value % 0x100) == value && value != -0x80
    ensures SignedLong(value % 0x1_0000_0000) == value
  {
  }

  /** The countdown after intervalTick(time): with a reporting interval it
      counts down, saturating at 0, and restarts at the interval on expiry;
      without one it is left alone. */
  function TickedNext(interval: ulong, next: ulong, time: ulong): ulong
  {
    if interval > 0 then
      var left := if time >= next then 0 else next - time;
      if left == 0 then interval else left
    else next
  }

  /** Whether intervalTick(time) sends a report. */
  function TickSends(interval: ulong, next: ulong, enqueued: bool, time: ulong): bool
  {
    if interval > 0 then time >= next else enqueued
  }

  /** The enqueued flag after intervalTick: cleared only on the path without
      a reporting interval. */
  function TickedEnqueued(interval: ulong, enqueued: bool): bool
  {
    if interval > 0 then enqueued else false
  }

  /** The scheduling part of a contact's state: its reporting interval,
      its countdown and whether a report is enqueued. */
  datatype Tick = Tick(interval: ulong, next: ulong, enqueued: bool)

  /** The scheduling state after intervalTick(time). */
  function TickAfter(t: Tick, time: ulong): Tick
  {
    Tick(t.interval, TickedNext(t.interval, t.next, time), TickedEnqueued(t.interval, t.enqueued))
  }

  /** The settings a contact keeps across scheduling: writeable flag and
      lower threshold. */
  datatype Settings = Settings(writeable: bool, hasLowerThreshold: bool, lowerThreshold: long)

  /** What the packet builders read of a contact with this id, type,
      settings and value: the size and the violation flag follow the value. */
  function SettingsView(id: byte, ctype: nat, s: Settings, value: long): ContactView
  {
    ContactView(id, ctype, s.writeable, value, ValueSize(value),
      if s.hasLowerThreshold then value <= s.lowerThreshold else false)
  }

  /** Everything of a contact that run() can change, and whether its value
      comes from a callback. */
  datatype ContactState = ContactState(tick: Tick, config: Settings, value: long, hasValueFunc: bool)

  /** `after` is `before` with at most the value refreshed: a contact
      without a callback keeps its value too. */
  predicate Refreshed(before: ContactState, after: ContactState)
  {
    && after.tick == before.tick
    && after.config == before.config
    && after.hasValueFunc == before.hasValueFunc
    && (!before.hasValueFunc ==> after.value == before.value)
  }

  /** `after` is `before` ticked by `time`, with at most the value refreshed. */
  predicate Ticked(before: ContactState, after: ContactState, time: ulong)
  {
    Refreshed(before.(tick := TickAfter(before.tick, time)), after)
  }

  /** A refresh followed by a tick is a tick. */
  lemma RefreshedThenTicked(a: ContactState, b: ContactState, c: ContactState, time: ulong)
    requires Refreshed(a, b) && Ticked(b, c, time)
    ensures Ticked(a, c, time)
  {
  }

  /** The countdown invariant: with a reporting interval the countdown is in
      (0, interval]; without one it is 0. */
  predicate CountdownOk(interval: ulong, next: ulong)
  {
    next <= interval && (interval > 0 ==> next > 0)
  }

  /** Ticking keeps the countdown invariant, and a tick sends exactly when
      the countdown expires (or, without an interval, when enqueued). */
  lemma TickKeepsCountdown(interval: ulong, next: ulong, enqueued: bool, time: ulong)
    requires CountdownOk(interval, next)
    ensures CountdownOk(interval, TickedNext(interval, next, time))
    ensures interval > 0 ==> (TickSends(interval, next, enqueued, time) <==> time >= next)
    ensures interval > 0 && time < next ==> TickedNext(interval, next, time) == next - time
    ensures interval > 0 && time >= next ==> TickedNext(interval, next, time) == interval
    ensures interval == 0 ==>
      TickSends(interval, next, enqueued, time) == enqueued && !TickedEnqueued(interval, enqueued)
  {
  }

  class Contact {
    const id: byte
    const ctype: nat
    var value: long
    var writeable: bool
    var hasLowerThreshold: bool
    var lowerThreshold: long
    const reportingInterval: ulong
    var nextReport: ulong
    /** Whether a value callback was given (mValueFunc != NULL). */
    const hasValueFunc: bool
    var enqueued: bool

    ghost predicate Valid()
      reads this
    {
      CountdownOk(reportingInterval, nextReport)
    }

    /** A new contact: not writeable, no threshold, value 0, not enqueued,
        countdown at the reporting interval. Registering it with the node
        is BranlyNode.Node.AddContact. */
    constructor (contactId: byte, contactType: nat, valueFunc: bool, interval: ulong)
      ensures Valid()
      ensures id == contactId && ctype == contactType && hasValueFunc == valueFunc
      ensures reportingInterval == interval && nextReport == interval
      ensures value == 0 && !writeable && !hasLowerThreshold && lowerThreshold == 0 && !enqueued
    {
      id := contactId;
      ctype := contactType;
      hasLowerThreshold := false;
      value := 0;
      lowerThreshold := 0;
      enqueued := false;
      reportingInterval := interval;
      hasValueFunc := valueFunc;
      writeable := false;
      nextReport := interval;
    }

    function TickState(): Tick
      reads this
    {
      Tick(reportingInterval, nextReport, enqueued)
    }

    function Config(): Settings
      reads this
    {
      Settings(writeable, hasLowerThreshold, lowerThreshold)
    }

    function State(): ContactState
      reads this
    {
      ContactState(TickState(), Config(), value, hasValueFunc)
    }

    /** isVioloted */
    predicate IsViolated()
      reads this
    {
      if hasLowerThreshold then value <= lowerThreshold else false
    }

    /** A report entry of this contact carries kFlagViolated exactly when a
        lower threshold is set and the value is at or below it. */
    lemma ViolationReported()
      ensures ReportFlags(View()) == FlagViolated <==> hasLowerThreshold && value <= lowerThreshold
      ensures ReportFlags(View()) == 0 <==> !IsViolated()
    {
    }

    /** What the packet builders read of this contact. */
    function View(): ContactView
      reads this
    {
      ViewAt(value)
    }

    /** What the packet builders would read of this contact if its value
        were `v`: the size and the violation flag follow `v`. */
    function ViewAt(v: long): ContactView
      reads this
    {
      SettingsView(id, ctype, Config(), v)
    }

    /** enqueueReport: sets the value and marks the contact enqueued. */
    method EnqueueReport(v: long)
      modifies this
      ensures value == v && enqueued
      ensures writeable == old(writeable) && hasLowerThreshold == old(hasLowerThreshold)
      ensures lowerThreshold == old(lowerThreshold) && nextReport == old(nextReport)
    {
      value := v;
      enqueued := true;
    }

    /** setLowerThreshold. The source stores `(unsigned long) threshold` in
        a long; on the target both are 32 bits wide, so the value is kept. */
    method SetLowerThreshold(threshold: long)
      modifies this
      ensures hasLowerThreshold && lowerThreshold == threshold
      ensures value == old(value) && writeable == old(writeable)
      ensures nextReport == old(nextReport) && enqueued == old(enqueued)
    {
      hasLowerThreshold := true;
      lowerThreshold := threshold;
    }

    /** setValue: always stores the value; the callback is invoked (and
        reported in `callbackInvoked`) only for a writeable contact that has one. */
    method SetValue(v: long) returns (callbackInvoked: bool)
      modifies this
      ensures value == v
      ensures callbackInvoked <==> writeable && hasValueFunc
      ensures writeable == old(writeable) && hasLowerThreshold == old(hasLowerThreshold)
      ensures lowerThreshold == old(lowerThreshold)
      ensures nextReport == old(nextReport) && enqueued == old(enqueued)
    {
      value := v;
      callbackInvoked := writeable && hasValueFunc;
    }

    /** refreshValue: with a callback the value becomes whatever it returns. */
    method RefreshValue()
      modifies this
      ensures !hasValueFunc ==> value == old(value)
      ensures writeable == old(writeable) && hasLowerThreshold == old(hasLowerThreshold)
      ensures lowerThreshold == old(lowerThreshold)
      ensures nextReport == old(nextReport) && enqueued == old(enqueued)
    {
      if hasValueFunc {
        var reading: long :| true;
        value := reading;
      }
    }

    /** sendReport: refreshes the value, builds a contact value packet of it
        and hands it to the radio, whose outcome is returned. */
    method SendReport(proto: PacketBuffer) returns (success: bool)
      requires proto.Valid()
      modifies this, proto, proto.buffer
      ensures proto.Valid()
      ensures proto.Packet() == [PacketType.ContactValue.Code(), old(proto.counter)] + EntryBytes(View())
      ensures proto.packets == old(proto.packets) + [proto.Packet()]
      ensures !hasValueFunc ==> value == old(value)
      ensures writeable == old(writeable) && hasLowerThreshold == old(hasLowerThreshold)
      ensures lowerThreshold == old(lowerThreshold)
      ensures nextReport == old(nextReport) && enqueued == old(enqueued)
    {
      RefreshValue();
      proto.BuildContactValue(View());
      success :| true;
    }

    /** intervalTick: counts the report countdown down by `time`; see
        TickedNext, TickSends and TickedEnqueued. `sent` says whether a
        report was sent. */
    method IntervalTick(time: ulong, proto: PacketBuffer) returns (sent: bool)
      requires Valid() && proto.Valid()
      modifies this, proto, proto.buffer
      ensures Valid() && proto.Valid()
      ensures sent == TickSends(reportingInterval, old(nextReport), old(enqueued), time)
      ensures nextReport == TickedNext(reportingInterval, old(nextReport), time)
      ensures enqueued == TickedEnqueued(reportingInterval, old(enqueued))
      ensures proto.packets == old(proto.packets) + if sent then [proto.Packet()] else []
      ensures sent ==> proto.Packet() == [PacketType.ContactValue.Code(), old(proto.counter)] + EntryBytes(View())
      ensures !sent ==> proto.Packet() == old(proto.Packet())
      ensures !hasValueFunc || !sent ==> value == old(value)
      ensures writeable == old(writeable) && hasLowerThreshold == old(hasLowerThreshold)
      ensures lowerThreshold == old(lowerThreshold)
    {
      sent := false;
      if reportingInterval > 0 {
        if time >= nextReport {
          nextReport := 0;
        } else {
          nextReport := nextReport - time;
        }
        if nextReport == 0 {
          var _ := SendReport(proto);
          sent := true;
          IntervalReset();
        }
      } else if enqueued {
        enqueued := false;
        var _ := SendReport(proto);
        sent := true;
      }
    }

    /** intervalReset: restarts the countdown. */
    method IntervalReset()
      modifies this
      ensures nextReport == reportingInterval
      ensures value == old(value) && writeable == old(writeable)
      ensures hasLowerThreshold == old(hasLowerThreshold) && lowerThreshold == old(lowerThreshold)
      ensures enqueued == old(enqueued)
    {
      nextReport := reportingInterval;
    }

    /** makeWriteable. No method clears the flag again. */
    method MakeWriteable()
      modifies this
      ensures writeable
      ensures value == old(value) && hasLowerThreshold == old(hasLowerThreshold)
      ensures lowerThreshold == old(lowerThreshold)
      ensures nextReport == old(nextReport) && enqueued == old(enqueued)
    {
      writeable := true;
    }
  }
}

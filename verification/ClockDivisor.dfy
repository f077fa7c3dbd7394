/** The fractional divisor of the PCM clock, over exact reals. */
module ClockDivisor {

  /** 64 half-cell pairs a frame and channel: 128 cells a frame. */
  function LineClock(rate: real): real {
    rate * 64.0 * 2.0
  }

  function PllFrequency(isPi4: bool): (f: real)
    ensures f > 0.0
  {
    if isPi4 then 750_000_000.0 else 500_000_000.0
  }

  function Divisor(pll: real, rate: real): (d: real)
    requires pll > 0.0 && rate > 0.0
    ensures d > 0.0 && d * LineClock(rate) == pll
  {
    pll / LineClock(rate)
  }

  /** Halves round away from zero; of non-negative numbers, up. */
  function Round(x: real): int
    requires x >= 0.0
  {
    (x + 0.5).Floor
  }

  datatype ClockConfig = ClockConfig(divi: int, divf: int)

  /** Integer part, and fraction in 4096ths. */
  function Configure(d: real): (c: ClockConfig)
    requires d > 0.0
  {
    var divi := d.Floor;
    ClockConfig(divi, Round(4096.0 * (d - divi as real)))
  }

  predicate GuardsHold(c: ClockConfig) {
    0 < c.divi < 4096 && 0 <= c.divf < 4096
  }

  /** The divisor the hardware is given. */
  function Effective(c: ClockConfig): real {
    c.divi as real + c.divf as real / 4096.0
  }

  /** The two fields together are the divisor rounded to the nearest 4096th. */
  lemma FieldsRoundDivisor(d: real)
    requires d > 0.0
    ensures 4096 * Configure(d).divi + Configure(d).divf == (4096.0 * d + 0.5).Floor
    ensures -1.0 <= 8192.0 * (Effective(Configure(d)) - d) <= 1.0
  {
    var c := Configure(d);
    var x := 4096.0 * (d - c.divi as real);
    assert 4096.0 * d + 0.5 == (x + 0.5) + (4096 * c.divi) as real;
    FloorShift(x + 0.5, 4096 * c.divi);
  }

  lemma FloorShift(x: real, k: int)
    ensures (x + k as real).Floor == x.Floor + k
  {
  }

  /** The clock driver accepts the fields exactly when the divisor is at least 1, below 4096, and
      its fraction does not round up to a whole: above 8191/8192 the fraction field overflows. */
  lemma GuardsHoldIff(d: real)
    requires d > 0.0
    ensures GuardsHold(Configure(d)) <==> 1 <= d.Floor < 4096 && d - d.Floor as real < 8191.0 / 8192.0
  {
  }

  /** At 20668 Hz, on any model but the Pi 4, the divisor lies in range and is refused. */
  lemma GuardsCanFail()
    ensures var d := Divisor(PllFrequency(false), 20668.0);
            && d.Floor == 188 && Configure(d) == ClockConfig(188, 4096) && !GuardsHold(Configure(d))
  {
    var d := Divisor(PllFrequency(false), 20668.0);
    assert d * 2645504.0 == 500_000_000.0;
    assert d.Floor == 188;
    assert 4095.5 <= 4096.0 * (d - 188.0) < 4096.0;
  }

  /** Relative error of the line clock: at most one part in 8192 effective divisors. */
  lemma FrequencyError(pll: real, rate: real)
    requires pll > 0.0 && rate > 0.0 && GuardsHold(Configure(Divisor(pll, rate)))
    ensures var e := Effective(Configure(Divisor(pll, rate)));
            var clock := LineClock(rate);
            e > 0.0 && -clock <= 8192.0 * (e * (pll / e - clock)) <= clock
  {
    var d := Divisor(pll, rate);
    var e := Effective(Configure(d));
    var clock := LineClock(rate);
    FieldsRoundDivisor(d);
    assert e >= 1.0 && clock > 0.0;
    hide Configure, Effective, Divisor, LineClock, GuardsHold;
    LineError(pll, d, e, clock);
    ScaleBound(d - e, clock, e * (pll / e - clock));
  }

  lemma LineError(pll: real, d: real, e: real, clock: real)
    requires e > 0.0 && d * clock == pll
    ensures e * (pll / e - clock) == (d - e) * clock
  {
    var q := pll / e;
    assert e * q == pll;
    Distribute(e, q, clock);
    Distribute(clock, d, e);
  }

  lemma Distribute(x: real, y: real, z: real)
    ensures x * (y - z) == x * y - x * z
  {
  }

  lemma ScaleBound(x: real, y: real, z: real)
    requires -1.0 <= 8192.0 * x <= 1.0 && y > 0.0 && z == x * y
    ensures -y <= 8192.0 * z <= y
  {
    NotNegative(1.0 - 8192.0 * x, y);
    NotNegative(1.0 + 8192.0 * x, y);
    assert (1.0 - 8192.0 * x) * y == y - 8192.0 * z;
    assert (1.0 + 8192.0 * x) * y == y + 8192.0 * z;
  }

  lemma NotNegative(x: real, y: real)
    requires x >= 0.0 && y > 0.0
    ensures x * y >= 0.0
  {
  }

  /** The fields, as 4096ths, times the line clock: the oscillator to within half a 4096th. */
  lemma FieldsNearRate(pll: real, rate: real, d: real)
    requires pll > 0.0 && rate > 0.0 && d > 0.0 && d == pll / (rate * 64.0 * 2.0)
    ensures d == pll / (128.0 * rate)
    ensures var fields := (4096 * Configure(d).divi + Configure(d).divf) as real;
            -64.0 * rate <= fields * (128.0 * rate) - 4096.0 * pll <= 64.0 * rate
  {
    FieldsRoundDivisor(d);
    var fields := (4096 * Configure(d).divi + Configure(d).divf) as real;
    hide Configure, Effective, Divisor;
    var clock := 128.0 * rate;
    assert rate * 64.0 * 2.0 == clock;
    assert d * clock == pll;
    assert -0.5 <= fields - 4096.0 * d <= 0.5;
    Distribute(clock, fields, 4096.0 * d);
    ScaleBound((fields - 4096.0 * d) / 4096.0, clock, (fields - 4096.0 * d) / 4096.0 * clock);
  }

  /** What the fields of a rate are, and when they are accepted. */
  lemma RateAccepted(isPi4: bool, rate: real, d: real)
    requires rate > 0.0 && d == (if isPi4 then 750_000_000.0 else 500_000_000.0) / (rate * 64.0 * 2.0)
    ensures d == Divisor(PllFrequency(isPi4), rate) > 0.0
    ensures d == (if isPi4 then 750_000_000.0 else 500_000_000.0) / (128.0 * rate)
    ensures GuardsHold(Configure(d)) == (1.0 <= d < 4096.0 && d - d.Floor as real < 8191.0 / 8192.0)
    ensures GuardsHold(Configure(d)) == (1 <= d.Floor < 4096 && d - d.Floor as real < 8191.0 / 8192.0)
    ensures 4096 * Configure(d).divi + Configure(d).divf == (4096.0 * d + 0.5).Floor
    ensures var fields := (4096 * Configure(d).divi + Configure(d).divf) as real;
            -64.0 * rate <= fields * (128.0 * rate)
                            - 4096.0 * (if isPi4 then 750_000_000.0 else 500_000_000.0) <= 64.0 * rate
  {
    assert PllFrequency(isPi4) == if isPi4 then 750_000_000.0 else 500_000_000.0;
    assert d == Divisor(PllFrequency(isPi4), rate);
    hide Divisor, PllFrequency;
    FloorRange(d);
    GuardsHoldIff(d);
    FieldsRoundDivisor(d);
    hide Configure, GuardsHold, Effective;
    FieldsNearRate(if isPi4 then 750_000_000.0 else 500_000_000.0, rate, d);
  }

  lemma FloorRange(d: real)
    ensures 1.0 <= d < 4096.0 <==> 1 <= d.Floor < 4096
  {
  }

  /** At 44.1 kHz: 88 and 2364 of 4096 from 500 MHz, 132 and 3546 of 4096 from the Pi 4's 750 MHz. */
  lemma At44100()
    ensures Configure(Divisor(PllFrequency(false), 44100.0)) == ClockConfig(88, 2364)
    ensures Configure(Divisor(PllFrequency(true), 44100.0)) == ClockConfig(132, 3546)
  {
    var d, e := Divisor(PllFrequency(false), 44100.0), Divisor(PllFrequency(true), 44100.0);
    assert d * 5644800.0 == 500_000_000.0 && e * 5644800.0 == 750_000_000.0;
    assert d.Floor == 88 && 2363.5 <= 4096.0 * (d - 88.0) < 2364.5;
    assert e.Floor == 132 && 3545.5 <= 4096.0 * (e - 132.0) < 3546.5;
  }

  const CLOCK_MANAGER_PASSWORD := 0x5A

  type Field12 = x: int | 0 <= x < 4096

  datatype Source = Ground | Oscillator | PllA | PllC | PllD | HdmiAux
  datatype Mash = MashNone | Mash1Stage | Mash2Stage | Mash3Stage

  datatype ControlRegister = ControlRegister(passwd: int, source: Source, enabled: bool, mash: Mash, flip: bool)
  datatype DivisorRegister = DivisorRegister(passwd: int, divi: Field12, divf: Field12)

  datatype RegisterWrite = ToControl(control: ControlRegister) | ToDivisor(divisor: DivisorRegister)

  /** The registers of one peripheral clock, and the order they were written in. */
  class PeripheralClock {
    var control: ControlRegister
    var divisor: DivisorRegister
    ghost var writes: seq<RegisterWrite>

    constructor ()
      ensures writes == []
    {
      control := ControlRegister(0, Ground, false, MashNone, false);
      divisor := DivisorRegister(0, 0, 0);
      writes := [];
    }

    method WriteControl(value: ControlRegister)
      modifies this`control, this`writes
      ensures control == value && writes == old(writes) + [ToControl(value)]
    {
      control := value;
      writes := writes + [ToControl(value)];
    }

    method WriteDivisor(value: DivisorRegister)
      modifies this`divisor, this`writes
      ensures divisor == value && writes == old(writes) + [ToDivisor(value)]
    {
      divisor := value;
      writes := writes + [ToDivisor(value)];
    }

    /** Stops the generator, changing nothing else of its control, then writes source, filter and
        divisor; touches nothing when the range assertions on the configuration fail. */
    method Write(source: Source, mash: Mash, invert: bool, config: ClockConfig) returns (accepted: bool)
      modifies this
      ensures accepted == GuardsHold(config)
      ensures !accepted ==> control == old(control) && divisor == old(divisor) && writes == old(writes)
      ensures accepted ==> writes == old(writes) + [ToControl(old(control).(passwd := 0x5A, enabled := false)),
                                                    ToControl(control), ToDivisor(divisor)]
      ensures accepted ==> control.passwd == divisor.passwd == 0x5A
      ensures accepted ==> control == ControlRegister(CLOCK_MANAGER_PASSWORD, source, false, mash, invert)
      ensures accepted ==> divisor == DivisorRegister(CLOCK_MANAGER_PASSWORD, config.divi, config.divf)
    {
      accepted := 0 < config.divi < 4096 && 0 <= config.divf < 4096;
      if accepted {
        WriteControl(control.(passwd := CLOCK_MANAGER_PASSWORD, enabled := false));
        WriteControl(ControlRegister(CLOCK_MANAGER_PASSWORD, source, false, mash, invert));
        WriteDivisor(DivisorRegister(CLOCK_MANAGER_PASSWORD, config.divi, config.divf));
      }
    }

    /** Sets the line clock for a sample rate. It is accepted exactly when the divisor is in range
        and its fraction does not round up to a whole; then the registers hold the divisor rounded
        to the nearest 4096th: the clock is PLLD, 750 MHz on a Pi 4 and 500 MHz on others, divided to
        within half a 4096th of 128 half-cells a sample, through the one-stage filter. */
    method SetRate(isPi4: bool, rate: real) returns (accepted: bool)
      requires rate > 0.0
      modifies this
      ensures var d := Divisor(PllFrequency(isPi4), rate);
              && (accepted <==> 1 <= d.Floor < 4096 && d - d.Floor as real < 8191.0 / 8192.0)
              && (accepted ==> control.source == PllD && 4096 * divisor.divi + divisor.divf == (4096.0 * d + 0.5).Floor)
              && (!accepted ==> control == old(control) && divisor == old(divisor))
      ensures var d := (if isPi4 then 750_000_000.0 else 500_000_000.0) / (128.0 * rate);
              accepted <==> 1.0 <= d < 4096.0 && d - d.Floor as real < 8191.0 / 8192.0
      ensures var fields := (4096 * divisor.divi + divisor.divf) as real;
              accepted ==> -64.0 * rate <= fields * (128.0 * rate)
                                           - 4096.0 * (if isPi4 then 750_000_000.0 else 500_000_000.0) <= 64.0 * rate
      ensures accepted ==> control == ControlRegister(0x5A, PllD, false, Mash1Stage, false)
    {
      var lineClock := rate * 64.0 * 2.0;
      var pll := if isPi4 then 750_000_000.0 else 500_000_000.0;
      var d := pll / lineClock;
      var divi := d.Floor;
      var divf := Round(4096.0 * (d - divi as real));
      RateAccepted(isPi4, rate, d);
      assert ClockConfig(divi, divf) == Configure(d);
      hide *;
      accepted := Write(PllD, Mash1Stage, false, ClockConfig(divi, divf));
    }
  }
}

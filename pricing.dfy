/** Pip size, price precision and the take-profit / stop-loss prices of the order the
    bot submits (`pip_size_for`, `price_decimals` and the arithmetic of
    `open_long_market`). Prices are exact reals; see README for floating point. */
module Pricing {
  import opened Wrappers
  import opened Settings

  function LowerChar(c: char): char {
    if 'A' <= c <= 'Z' then (c as int + 32) as char else c
  }

  /** `str.lower()` on the letters A to Z; other characters are left as they are. */
  function Lower(s: string): (r: string)
    ensures |r| == |s|
    ensures forall i :: 0 <= i < |s| ==> r[i] == LowerChar(s[i])
  {
    seq(|s|, i requires 0 <= i < |s| => LowerChar(s[i]))
  }

  predicate StartsWith(s: string, prefix: string) {
    |prefix| <= |s| && s[..|prefix|] == prefix
  }

  predicate EndsWith(s: string, suffix: string) {
    |suffix| <= |s| && s[|s| - |suffix|..] == suffix
  }

  /** `pipMode.lower().startswith("auto")`. */
  predicate IsAutoPipMode(mode: string) {
    StartsWith(Lower(mode), "auto")
  }

  /** `pip_size_for`: by instrument suffix in automatic mode, else the configured pip. */
  function PipSize(cfg: Config): real {
    if IsAutoPipMode(cfg.pipMode) then
      (if EndsWith(cfg.instrument, "JPY") then 0.01 else 0.0001)
    else cfg.customPip
  }

  /** `price_decimals`: five decimals for pips of 0.0001 or less, else three. */
  function PriceDecimals(pip: real): nat {
    if pip <= 0.0001 then 5 else 3
  }

  /** The market order `open_long_market` submits: always MARKET, fill-or-kill, default
      position fill; prices rounded to `decimals` places when sent. */
  datatype Order = Order(instrument: string, units: int, takeProfit: real,
                         stopLoss: Option<real>, decimals: nat)

  /** The order for the current ask price. */
  function BuildOrder(cfg: Config, ask: real): Order {
    var pip := PipSize(cfg);
    var sl := if cfg.slPips > 0 then Some(ask - cfg.slPips as real * pip) else None;
    Order(cfg.instrument, cfg.units, ask + cfg.tpPips as real * pip, sl, PriceDecimals(pip))
  }

  /** In automatic mode, JPY-quoted instruments get 0.01 pips priced to three decimals;
      every other instrument gets 0.0001 pips priced to five. */
  lemma AutoPipSize(cfg: Config)
    requires IsAutoPipMode(cfg.pipMode)
    ensures PipSize(cfg) == 0.01 <==> EndsWith(cfg.instrument, "JPY")
    ensures PipSize(cfg) == 0.0001 <==> !EndsWith(cfg.instrument, "JPY")
    ensures PriceDecimals(PipSize(cfg)) == 3 <==> EndsWith(cfg.instrument, "JPY")
    ensures PriceDecimals(PipSize(cfg)) == 5 <==> !EndsWith(cfg.instrument, "JPY")
  {
  }

  /** Outside automatic mode the configured pip is used whatever the instrument, and the
      precision follows it. */
  lemma CustomPipSize(cfg: Config)
    requires !IsAutoPipMode(cfg.pipMode)
    ensures PipSize(cfg) == cfg.customPip
    ensures PriceDecimals(PipSize(cfg)) == 5 <==> cfg.customPip <= 0.0001
    ensures PriceDecimals(PipSize(cfg)) == 3 <==> cfg.customPip > 0.0001
  {
  }

  /** The mode test ignores letter case: "Auto (FX)" and "AUTO" are automatic,
      "Personalizado" is not. */
  lemma PipModeSpellings()
    ensures IsAutoPipMode("Auto (FX)") && IsAutoPipMode("AUTO") && IsAutoPipMode("auto")
    ensures !IsAutoPipMode("Personalizado") && !IsAutoPipMode("Aut")
  {
    assert Lower("Auto (FX)")[..4] == "auto";
    assert Lower("AUTO") == "auto";
    assert Lower("auto") == "auto";
    assert Lower("Personalizado")[0] == 'p';
  }

  /** The order brackets the ask: take-profit `tpPips` pips above it, a stop-loss
      `slPips` pips below it present exactly when `slPips > 0`. */
  lemma OrderBracketsAsk(cfg: Config, ask: real)
    ensures var o := BuildOrder(cfg, ask);
      && o.instrument == cfg.instrument && o.units == cfg.units
      && o.takeProfit - ask == cfg.tpPips as real * PipSize(cfg)
      && (o.stopLoss.Some? <==> cfg.slPips > 0)
      && (o.stopLoss.Some? ==> ask - o.stopLoss.value == cfg.slPips as real * PipSize(cfg))
      && o.decimals == PriceDecimals(PipSize(cfg))
    ensures var o := BuildOrder(cfg, ask);
      PipSize(cfg) > 0.0 ==>
        (cfg.tpPips >= 1 ==> o.takeProfit > ask)
        && (o.stopLoss.Some? ==> o.stopLoss.value < ask)
  {
  }

  /** With the default configuration (EUR_USD, 10 pips, no stop-loss) the take-profit is
      the ask plus 0.0010, there is no stop-loss and prices carry five decimals. */
  lemma DefaultOrder(ask: real)
    ensures BuildOrder(DefaultConfig, ask) == Order("EUR_USD", 10000, ask + 0.0010, None, 5)
  {
    PipModeSpellings();
    assert !EndsWith("EUR_USD", "JPY") by {
      assert "EUR_USD"[4..] == "USD";
    }
  }
}

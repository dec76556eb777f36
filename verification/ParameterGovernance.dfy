/** Governed parameters: byte-encoded proposals are checked against hard bounds and against
    each other before they are stored. */
module ParameterGovernance {
  import opened Bytes
  import opened Options
  import opened Tokens

  const COOLDOWN := "cooldown"
  const HISTORY_DEPTH := "hist_dep"
  const DECAY_RATE := "decay_rt"
  const VELOCITY_CAP := "vel_cap"
  const UPGRADE_DELAY := "upg_dlay"
  const STALENESS_WINDOW := "stale_win"

  const MIN_COOLDOWN_SECS := 60
  const MAX_COOLDOWN_SECS := 86_400
  const DEFAULT_COOLDOWN_SECS := 3_600
  const MAX_HISTORY_DEPTH := 50
  const DEFAULT_HISTORY_MAX_DEPTH := 10
  const MAX_DECAY_LAMBDA_NUM := 1
  const MAX_DECAY_LAMBDA_DEN := 1
  const MIN_UPGRADE_DELAY_SECS := 172_800
  const MAX_UPGRADE_DELAY_SECS := 1_209_600
  const DEFAULT_STALENESS_WINDOW_SECS := 604_800

  datatype ParamError =
    | InvalidParameterKey
    | InvalidParameterValue
    | InvalidCooldown
    | InvalidHistoryDepth
    | InvalidThreshold
    | InvalidUpgradeDelay
    | Panics

  datatype Result<T> = Ok(value: T) | Err(error: ParamError)

  datatype Bounds = Bounds(key: string, min: nat, max: nat)

  datatype Params = Params(
    cooldown: nat,
    historyDepth: nat,
    decayNum: nat,
    decayDen: nat,
    capEnabled: bool,
    capPoints: nat,
    upgradeDelay: nat,
    staleness: nat)

  const DEFAULTS := Params(DEFAULT_COOLDOWN_SECS, DEFAULT_HISTORY_MAX_DEPTH, 0, 1, false, 0,
                           MIN_UPGRADE_DELAY_SECS, DEFAULT_STALENESS_WINDOW_SECS)

  /** `window` holds the staleness window's own bounds. */
  function Registry(window: Bounds): seq<Bounds> {
    [ Bounds(COOLDOWN, MIN_COOLDOWN_SECS, MAX_COOLDOWN_SECS),
      Bounds(HISTORY_DEPTH, 1, MAX_HISTORY_DEPTH),
      Bounds(DECAY_RATE, 0, MAX_DECAY_LAMBDA_NUM),
      Bounds(VELOCITY_CAP, 0, U32_MAX),
      Bounds(UPGRADE_DELAY, MIN_UPGRADE_DELAY_SECS, MAX_UPGRADE_DELAY_SECS),
      Bounds(STALENESS_WINDOW, window.min, window.max) ]
  }

  /** The table scan. */
  method GetParameterBounds(window: Bounds, key: string) returns (r: Option<Bounds>)
    ensures r.None? <==> key !in [COOLDOWN, HISTORY_DEPTH, DECAY_RATE, VELOCITY_CAP, UPGRADE_DELAY, STALENESS_WINDOW]
    ensures r.Some? ==> r.value in Registry(window) && r.value.key == key
  {
    var table := Registry(window);
    for i := 0 to |table|
      invariant forall j :: 0 <= j < i ==> table[j].key != key
    {
      if table[i].key == key {
        return Some(table[i]);
      }
    }
    assert forall j :: 0 <= j < 6 ==> table[j].key != key;
    assert table[0].key != key && table[1].key != key && table[2].key != key;
    assert table[3].key != key && table[4].key != key && table[5].key != key;
    r := None;
  }

  method ReadU64(value: ByteString) returns (r: Result<nat>)
    ensures r == if |value| == 8 then Ok(FromBigEndian(value)) else Err(InvalidParameterValue)
  {
    if |value| != 8 {
      return Err(InvalidParameterValue);
    }
    var n := ReadBytes(value, 0, 8);
    assert value[0..8] == value;
    r := Ok(n);
  }

  method ReadU32(value: ByteString, offset: nat) returns (r: Result<nat>)
    ensures r == if |value| >= offset + 4 then Ok(FromBigEndian(value[offset..offset + 4])) else Err(InvalidParameterValue)
  {
    if |value| < offset + 4 {
      return Err(InvalidParameterValue);
    }
    var n := ReadBytes(value, offset, 4);
    r := Ok(n);
  }

  /** Most significant byte first. */
  method ReadBytes(value: ByteString, offset: nat, width: nat) returns (n: nat)
    requires offset + width <= |value|
    ensures n == FromBigEndian(value[offset..offset + width])
  {
    n := 0;
    for i := 0 to width
      invariant n == FromBigEndian(value[offset..offset + i])
    {
      var longer := value[offset..offset + i + 1];
      assert longer[..|longer| - 1] == value[offset..offset + i];
      n := value[offset + i] as nat + 256 * n;
    }
  }

  // What a proposal has to satisfy.

  function U64(value: ByteString): nat
    requires |value| == 8
  {
    FromBigEndian(value)
  }

  function U32(value: ByteString, offset: nat): nat
    requires |value| >= offset + 4
  {
    FromBigEndian(value[offset..offset + 4])
  }

  /** The error a proposal is refused with, if any. */
  function Refusal(p: Params, window: Bounds, key: string, value: ByteString): Option<ParamError> {
    if key == COOLDOWN then
      if |value| != 8 then Some(InvalidParameterValue)
      else if !(MIN_COOLDOWN_SECS <= U64(value) <= MAX_COOLDOWN_SECS) || U64(value) > p.staleness then Some(InvalidCooldown)
      else None
    else if key == HISTORY_DEPTH then
      if |value| < 4 then Some(InvalidParameterValue)
      else if !(1 <= U32(value, 0) <= MAX_HISTORY_DEPTH) then Some(InvalidHistoryDepth)
      else None
    else if key == DECAY_RATE then
      if |value| != 8 then Some(InvalidParameterValue)
      else if U32(value, 4) == 0 || U32(value, 0) > U32(value, 4) then Some(InvalidThreshold)
      else None
    else if key == VELOCITY_CAP then
      if |value| != 5 || value[0] > 1 then Some(InvalidParameterValue)
      else None
    else if key == UPGRADE_DELAY then
      if |value| != 8 then Some(InvalidParameterValue)
      else if !(MIN_UPGRADE_DELAY_SECS <= U64(value) <= MAX_UPGRADE_DELAY_SECS) then Some(InvalidUpgradeDelay)
      else None
    else if key == STALENESS_WINDOW then
      if |value| != 8 then Some(InvalidParameterValue)
      else if !(window.min <= U64(value) <= window.max) || U64(value) < p.cooldown then Some(InvalidParameterValue)
      else None
    else Some(InvalidParameterKey)
  }

  /** `value` can be read as a value of `key`. */
  predicate Readable(key: string, value: ByteString) {
    if key == HISTORY_DEPTH then |value| >= 4
    else if key == VELOCITY_CAP then |value| == 5 && value[0] <= 1
    else key in [COOLDOWN, DECAY_RATE, UPGRADE_DELAY, STALENESS_WINDOW] && |value| == 8
  }

  /** The parameters after the proposal; a refused one changes nothing. */
  function Applied(p: Params, window: Bounds, key: string, value: ByteString): Params {
    if Refusal(p, window, key, value).Some? then p else Put(p, key, value)
  }

  /** The parameters with `key` replaced, unchecked. */
  function Put(p: Params, key: string, value: ByteString): Params
    requires Readable(key, value)
  {
    if key == COOLDOWN then p.(cooldown := U64(value))
    else if key == HISTORY_DEPTH then p.(historyDepth := U32(value, 0))
    else if key == DECAY_RATE then p.(decayNum := U32(value, 0), decayDen := U32(value, 4))
    else if key == VELOCITY_CAP then p.(capEnabled := value[0] == 1, capPoints := U32(value, 1))
    else if key == UPGRADE_DELAY then p.(upgradeDelay := U64(value))
    else p.(staleness := U64(value))
  }

  /** The stored value as bytes. The decay rate's two eight-byte halves do not fit the four
      bytes each is copied into. */
  function Current(p: Params, key: string): Result<ByteString> {
    if key == COOLDOWN then Ok(BigEndian(p.cooldown, 8))
    else if key == HISTORY_DEPTH then Ok(BigEndian(p.historyDepth, 4))
    else if key == DECAY_RATE then Err(Panics)
    else if key == VELOCITY_CAP then Ok([if p.capEnabled then 1 else 0] + BigEndian(p.capPoints, 4))
    else if key == UPGRADE_DELAY then Ok(BigEndian(p.upgradeDelay, 8))
    else if key == STALENESS_WINDOW then Ok(BigEndian(p.staleness, 8))
    else Err(InvalidParameterKey)
  }

  // Invariants over every run.

  /** Every parameter within its bounds, a decay rate of at most one with a denominator, and
      a cooldown no longer than the staleness window. */
  ghost predicate InBounds(p: Params, window: Bounds) {
    && MIN_COOLDOWN_SECS <= p.cooldown <= MAX_COOLDOWN_SECS
    && 1 <= p.historyDepth <= MAX_HISTORY_DEPTH
    && p.decayDen > 0 && p.decayNum <= p.decayDen && p.decayDen <= U32_MAX
    && p.capPoints <= U32_MAX
    && MIN_UPGRADE_DELAY_SECS <= p.upgradeDelay <= MAX_UPGRADE_DELAY_SECS
    && window.min <= p.staleness <= window.max
    && p.cooldown <= p.staleness
  }

  lemma U32Fits(value: ByteString, offset: nat)
    requires |value| >= offset + 4
    ensures U32(value, offset) <= U32_MAX
  {
    assert Pow256(4) == U32_MAX + 1 by {
      assert Pow256(2) == 65536;
      assert Pow256(3) == 256 * Pow256(2);
    }
  }

  lemma ApplyKeepsBounds(p: Params, window: Bounds, key: string, value: ByteString)
    requires InBounds(p, window)
    ensures InBounds(Applied(p, window, key, value), window)
  {
    if Refusal(p, window, key, value).None? {
      if key == DECAY_RATE {
        U32Fits(value, 4);
      } else if key == VELOCITY_CAP {
        U32Fits(value, 1);
      }
    }
  }

  /** Nothing is refused without need: a readable proposal is accepted exactly when the
      parameters would still be within all bounds, the cross bounds included. */
  lemma AcceptedExactly(p: Params, window: Bounds, key: string, value: ByteString)
    requires InBounds(p, window)
    ensures Refusal(p, window, key, value).None? <==> Readable(key, value) && InBounds(Put(p, key, value), window)
  {
    if key == DECAY_RATE {
      if |value| == 8 {
        U32Fits(value, 4);
      }
    } else if key == VELOCITY_CAP {
      if |value| == 5 {
        U32Fits(value, 1);
      }
    } else if key == HISTORY_DEPTH {
    } else if key == COOLDOWN {
    } else if key == UPGRADE_DELAY {
    } else if key == STALENESS_WINDOW {
    }
  }

  /** What the parameters accept, byte by byte: widths, ranges and the two cross bounds. */
  lemma AcceptedCrossBounded(p: Params, window: Bounds, value: ByteString)
    ensures Refusal(p, window, COOLDOWN, value).None?
            <==> |value| == 8 && 60 <= FromBigEndian(value) <= 86_400 && FromBigEndian(value) <= p.staleness
    ensures Refusal(p, window, STALENESS_WINDOW, value).None?
            <==> |value| == 8 && window.min <= FromBigEndian(value) <= window.max && p.cooldown <= FromBigEndian(value)
  {
  }

  lemma AcceptedRanges(p: Params, window: Bounds, value: ByteString)
    ensures Refusal(p, window, UPGRADE_DELAY, value).None? <==> |value| == 8 && 172_800 <= FromBigEndian(value) <= 1_209_600
    ensures Refusal(p, window, VELOCITY_CAP, value).None? <==> |value| == 5 && (value[0] == 0 || value[0] == 1)
  {
  }

  /** A depth may be followed by more bytes. */
  lemma AcceptedDepth(p: Params, window: Bounds, value: ByteString)
    ensures Refusal(p, window, HISTORY_DEPTH, value).None? <==> |value| >= 4 && 1 <= FromBigEndian(value[..4]) <= 50
  {
    if |value| >= 4 {
      assert value[0..4] == value[..4];
    }
  }

  lemma AcceptedDecayRate(p: Params, window: Bounds, value: ByteString)
    ensures Refusal(p, window, DECAY_RATE, value).None?
            <==> |value| == 8 && FromBigEndian(value[..4]) <= FromBigEndian(value[4..]) && FromBigEndian(value[4..]) != 0
  {
    if |value| == 8 {
      assert value[0..4] == value[..4] && value[4..8] == value[4..];
    }
  }

  /** Which error a proposal is refused with: an unknown key, a value that cannot be read, or
      the parameter's own error when the value is out of bounds. */
  lemma RefusedWith(p: Params, window: Bounds, key: string, value: ByteString)
    requires Refusal(p, window, key, value).Some?
    ensures var known := key in [COOLDOWN, HISTORY_DEPTH, DECAY_RATE, VELOCITY_CAP, UPGRADE_DELAY, STALENESS_WINDOW];
            Refusal(p, window, key, value).value
            == if !known then InvalidParameterKey
               else if !Readable(key, value) then InvalidParameterValue
               else if key == COOLDOWN then InvalidCooldown
               else if key == HISTORY_DEPTH then InvalidHistoryDepth
               else if key == DECAY_RATE then InvalidThreshold
               else if key == UPGRADE_DELAY then InvalidUpgradeDelay
               else InvalidParameterValue
  {
  }

  datatype Proposal = Proposal(key: string, value: ByteString)

  ghost function ApplyAll(p: Params, window: Bounds, run: seq<Proposal>): Params {
    if run == [] then p
    else
      var n := |run| - 1;
      Applied(ApplyAll(p, window, run[..n]), window, run[n].key, run[n].value)
  }

  /** Whatever is proposed, in whatever order, the bounds hold throughout. */
  lemma {:induction false} EveryRunInBounds(window: Bounds, run: seq<Proposal>)
    requires window.min <= DEFAULT_STALENESS_WINDOW_SECS <= window.max
    ensures InBounds(ApplyAll(DEFAULTS, window, run), window)
  {
    if run != [] {
      var n := |run| - 1;
      EveryRunInBounds(window, run[..n]);
      ApplyKeepsBounds(ApplyAll(DEFAULTS, window, run[..n]), window, run[n].key, run[n].value);
    }
  }

  // The setters beside the registry.

  /** A proposal through the registry, or one of the contract's own setters: the cooldown is
      stored at once, the staleness window once its time lock has run out. */
  datatype Change = Propose(key: string, value: ByteString) | SetCooldown(secs: nat) | SetStaleness(secs: nat)

  /** The own setters check one parameter at a time. */
  function Changed(p: Params, window: Bounds, change: Change): Params {
    match change
    case Propose(key, value) => Applied(p, window, key, value)
    case SetCooldown(secs) => if MIN_COOLDOWN_SECS <= secs <= MAX_COOLDOWN_SECS then p.(cooldown := secs) else p
    case SetStaleness(secs) => if secs == 0 then p else p.(staleness := secs)
  }

  /** What a caller of an own setter would have to check: that the setter refuses the value, or
      that the value fits the other parameter and, for the window, its bounds. */
  predicate Harmless(p: Params, window: Bounds, change: Change) {
    match change
    case Propose(_, _) => true
    case SetCooldown(secs) => !(MIN_COOLDOWN_SECS <= secs <= MAX_COOLDOWN_SECS) || secs <= p.staleness
    case SetStaleness(secs) => secs == 0 || (window.min <= secs <= window.max && p.cooldown <= secs)
  }

  /** A change keeps all bounds exactly when it is harmless. */
  lemma ChangeKeepsBoundsExactly(p: Params, window: Bounds, change: Change)
    requires InBounds(p, window)
    ensures InBounds(Changed(p, window, change), window) <==> Harmless(p, window, change)
  {
    if change.Propose? {
      ApplyKeepsBounds(p, window, change.key, change.value);
    }
  }

  ghost function ChangeAll(p: Params, window: Bounds, run: seq<Change>): Params {
    if run == [] then p else Changed(ChangeAll(p, window, run[..|run| - 1]), window, run[|run| - 1])
  }

  /** The parameters after the first `k` changes. */
  ghost function After(p: Params, window: Bounds, run: seq<Change>, k: nat): Params
    requires k <= |run|
  {
    ChangeAll(p, window, run[..k])
  }

  lemma AfterNext(p: Params, window: Bounds, run: seq<Change>, k: nat)
    requires k < |run|
    ensures After(p, window, run, k + 1) == Changed(After(p, window, run, k), window, run[k])
  {
    assert run[..k + 1][..k] == run[..k];
  }

  /** Over every run of proposals and own setters, the bounds hold throughout exactly when
      every change is harmless at its moment; with proposals alone they always do. */
  lemma RunInBoundsExactly(window: Bounds, run: seq<Change>)
    requires window.min <= DEFAULT_STALENESS_WINDOW_SECS <= window.max
    ensures (forall k :: 0 <= k <= |run| ==> InBounds(After(DEFAULTS, window, run, k), window))
            <==> (forall k :: 0 <= k < |run| ==> Harmless(After(DEFAULTS, window, run, k), window, run[k]))
  {
    if forall k :: 0 <= k <= |run| ==> InBounds(After(DEFAULTS, window, run, k), window) {
      forall k | 0 <= k < |run| ensures Harmless(After(DEFAULTS, window, run, k), window, run[k]) {
        AfterNext(DEFAULTS, window, run, k);
        assert InBounds(After(DEFAULTS, window, run, k + 1), window);
        ChangeKeepsBoundsExactly(After(DEFAULTS, window, run, k), window, run[k]);
      }
    }
    if forall k :: 0 <= k < |run| ==> Harmless(After(DEFAULTS, window, run, k), window, run[k]) {
      forall k | 0 <= k <= |run| ensures InBounds(After(DEFAULTS, window, run, k), window) {
        HarmlessRun(window, run, k);
      }
    }
  }

  lemma {:induction false} HarmlessRun(window: Bounds, run: seq<Change>, k: nat)
    requires window.min <= DEFAULT_STALENESS_WINDOW_SECS <= window.max && k <= |run|
    requires forall i :: 0 <= i < |run| ==> Harmless(After(DEFAULTS, window, run, i), window, run[i])
    ensures InBounds(After(DEFAULTS, window, run, k), window)
  {
    if k > 0 {
      HarmlessRun(window, run, k - 1);
      AfterNext(DEFAULTS, window, run, k - 1);
      ChangeKeepsBoundsExactly(After(DEFAULTS, window, run, k - 1), window, run[k - 1]);
    }
  }

  /** Two of the contract's own setters, each accepted, that leave a cooldown above the
      staleness window. */
  lemma OwnSettersBreakBound(window: Bounds)
    ensures var p := ChangeAll(DEFAULTS, window, [SetStaleness(3_600), SetCooldown(86_400)]);
            p.staleness == 3_600 && p.cooldown == 86_400 && !InBounds(p, window)
  {
    var run := [SetStaleness(3_600), SetCooldown(86_400)];
    assert run[..1] == [SetStaleness(3_600)] && run[..1][..0] == [];
    assert ChangeAll(DEFAULTS, window, run[..1]) == DEFAULTS.(staleness := 3_600);
  }

  // Reading back.

  function Width(key: string): nat {
    if key == HISTORY_DEPTH then 4 else if key == VELOCITY_CAP then 5 else 8
  }

  /** An accepted value is read back byte for byte. Only the history depth accepts a longer
      value, and then its first four bytes are what is stored. */
  lemma AcceptedReadsBack(p: Params, window: Bounds, key: string, value: ByteString)
    requires Refusal(p, window, key, value).None? && key != DECAY_RATE
    ensures |value| >= Width(key) && (key != HISTORY_DEPTH ==> |value| == Width(key))
    ensures Current(Applied(p, window, key, value), key) == Ok(value[..Width(key)])
  {
    if key == HISTORY_DEPTH {
      BigEndianOfRead(value[0..4]);
    } else if key == VELOCITY_CAP {
      BigEndianOfRead(value[1..5]);
      assert value[..5] == value == [value[0]] + value[1..5];
    } else {
      BigEndianOfRead(value);
      assert value[..8] == value;
    }
  }

  /** An accepted decay rate is stored as its two halves, numerator first, byte for byte. */
  lemma DecayRateIsStored(p: Params, window: Bounds, value: ByteString)
    requires Refusal(p, window, DECAY_RATE, value).None?
    ensures var after := Applied(p, window, DECAY_RATE, value);
            && |value| == 8
            && BigEndian(after.decayNum, 4) == value[..4] && BigEndian(after.decayDen, 4) == value[4..]
            && 0 < after.decayDen && after.decayNum <= after.decayDen
  {
    BigEndianOfRead(value[0..4]);
    BigEndianOfRead(value[4..8]);
    assert value[0..4] == value[..4] && value[4..8] == value[4..];
  }

  /** A proposal changes no parameter but its own. */
  lemma OthersStay(p: Params, window: Bounds, key: string, value: ByteString, other: string)
    requires other != key
    ensures var after := Applied(p, window, key, value);
            && Current(after, other) == Current(p, other)
            && (other == DECAY_RATE ==> after.decayNum == p.decayNum && after.decayDen == p.decayDen)
  {
  }

  /** Re-applying what is stored is always accepted and changes nothing. */
  lemma ReapplyChangesNothing(p: Params, window: Bounds, key: string)
    requires InBounds(p, window) && Current(p, key).Ok? && window.max <= U64_MAX
    ensures var value := Current(p, key).value;
            Refusal(p, window, key, value).None? && Applied(p, window, key, value) == p
  {
    var value := Current(p, key).value;
    assert Pow256(4) == U32_MAX + 1 && Pow256(8) == U64_MAX + 1 by { Powers(); }
    if key == HISTORY_DEPTH {
      BigEndianRoundTrip(p.historyDepth, 4);
      assert value[0..4] == value;
    } else if key == VELOCITY_CAP {
      BigEndianRoundTrip(p.capPoints, 4);
      assert value[1..5] == BigEndian(p.capPoints, 4);
    } else if key == COOLDOWN {
      BigEndianRoundTrip(p.cooldown, 8);
    } else if key == UPGRADE_DELAY {
      BigEndianRoundTrip(p.upgradeDelay, 8);
    } else {
      BigEndianRoundTrip(p.staleness, 8);
    }
  }

  lemma Powers()
    ensures Pow256(4) == U32_MAX + 1 && Pow256(8) == U64_MAX + 1
  {
    assert Pow256(2) == 65536;
    assert Pow256(4) == 256 * (256 * Pow256(2));
    assert Pow256(6) == 256 * (256 * Pow256(4));
    assert Pow256(8) == 256 * (256 * Pow256(6));
  }

  // The stored parameters.

  class Store {
    const window: Bounds
    var cooldown: nat
    var historyDepth: nat
    var decayNum: nat
    var decayDen: nat
    var capEnabled: bool
    var capPoints: nat
    var upgradeDelay: nat
    var staleness: nat

    function Abs(): Params
      reads this
    {
      Params(cooldown, historyDepth, decayNum, decayDen, capEnabled, capPoints, upgradeDelay, staleness)
    }

    constructor (window: Bounds)
      ensures this.window == window && Abs() == DEFAULTS
    {
      this.window := window;
      cooldown, historyDepth, decayNum, decayDen := DEFAULT_COOLDOWN_SECS, DEFAULT_HISTORY_MAX_DEPTH, 0, 1;
      capEnabled, capPoints, upgradeDelay, staleness := false, 0, MIN_UPGRADE_DELAY_SECS, DEFAULT_STALENESS_WINDOW_SECS;
    }

    /** `validate_cross_parameter_constraints`. */
    method ValidateCross(key: string, value: ByteString) returns (r: Option<ParamError>)
      requires (key == COOLDOWN || key == STALENESS_WINDOW) && |value| == 8
      ensures r == if key == COOLDOWN && U64(value) > staleness then Some(InvalidCooldown)
                   else if key == STALENESS_WINDOW && U64(value) < cooldown then Some(InvalidParameterValue)
                   else None
    {
      var secs := ReadU64(value);
      if key == COOLDOWN && secs.value > staleness {
        return Some(InvalidCooldown);
      }
      if key == STALENESS_WINDOW && secs.value < cooldown {
        return Some(InvalidParameterValue);
      }
      r := None;
    }

    /** The parameters that are one `u64` between their bounds. */
    method ValidateU64(bounds: Bounds, value: ByteString, outside: ParamError) returns (r: Option<ParamError>)
      ensures r == if |value| != 8 then Some(InvalidParameterValue)
                   else if !(bounds.min <= U64(value) <= bounds.max) then Some(outside) else None
    {
      var read := ReadU64(value);
      if read.Err? {
        return Some(read.error);
      }
      r := if bounds.min <= read.value <= bounds.max then None else Some(outside);
    }

    method ValidateDecayRate(value: ByteString) returns (r: Option<ParamError>)
      ensures r == Refusal(Abs(), window, DECAY_RATE, value)
    {
      if |value| != 8 {
        return Some(InvalidParameterValue);
      }
      var num := ReadU32(value, 0);
      var den := ReadU32(value, 4);
      if den.value == 0 {
        return Some(InvalidThreshold);
      }
      if num.value * MAX_DECAY_LAMBDA_DEN > MAX_DECAY_LAMBDA_NUM * den.value {
        return Some(InvalidThreshold);
      }
      r := None;
    }

    method Validate(key: string, value: ByteString) returns (r: Option<ParamError>)
      ensures r == Refusal(Abs(), window, key, value)
    {
      var found := GetParameterBounds(window, key);
      if found.None? {
        return Some(InvalidParameterKey);
      }
      var bounds := found.value;
      if key == COOLDOWN {
        r := ValidateU64(bounds, value, InvalidCooldown);
        if r.None? {
          r := ValidateCross(key, value);
        }
      } else if key == HISTORY_DEPTH {
        var depth := ReadU32(value, 0);
        if depth.Err? {
          return Some(depth.error);
        }
        r := if bounds.min <= depth.value <= bounds.max then None else Some(InvalidHistoryDepth);
      } else if key == DECAY_RATE {
        r := ValidateDecayRate(value);
      } else if key == VELOCITY_CAP {
        r := if |value| != 5 || value[0] > 1 then Some(InvalidParameterValue) else None;
      } else if key == UPGRADE_DELAY {
        r := ValidateU64(bounds, value, InvalidUpgradeDelay);
      } else {
        r := ValidateU64(bounds, value, InvalidParameterValue);
        if r.None? {
          r := ValidateCross(key, value);
        }
      }
    }

    /** The contract's own cooldown setter. */
    method SetCooldownSecs(secs: nat) returns (r: Option<ParamError>)
      modifies this
      ensures r.None? <==> MIN_COOLDOWN_SECS <= secs <= MAX_COOLDOWN_SECS
      ensures Abs() == Changed(old(Abs()), window, SetCooldown(secs))
    {
      if !(MIN_COOLDOWN_SECS <= secs <= MAX_COOLDOWN_SECS) {
        return Some(InvalidCooldown);
      }
      cooldown := secs;
      r := None;
    }

    method ApplyParameterChange(key: string, value: ByteString) returns (r: Option<ParamError>)
      modifies this
      ensures r == Refusal(old(Abs()), window, key, value)
      ensures Abs() == Applied(old(Abs()), window, key, value)
    {
      r := Validate(key, value);
      if r.Some? {
        return;
      }
      if key == COOLDOWN {
        var secs := ReadU64(value);
        cooldown := secs.value;
      } else if key == HISTORY_DEPTH {
        var depth := ReadU32(value, 0);
        historyDepth := depth.value;
      } else if key == DECAY_RATE {
        var num := ReadU32(value, 0);
        var den := ReadU32(value, 4);
        decayNum, decayDen := num.value, den.value;
      } else if key == VELOCITY_CAP {
        var points := ReadU32(value, 1);
        capEnabled, capPoints := value[0] == 1, points.value;
      } else if key == UPGRADE_DELAY {
        var delay := ReadU64(value);
        upgradeDelay := delay.value;
      } else {
        var secs := ReadU64(value);
        staleness := secs.value;
      }
    }
  }
}

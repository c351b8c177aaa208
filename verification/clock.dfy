/** `SystemClock`: a ring of `phases` quadrature clock lines of which, after
    every tick, exactly one is high, the one at `phase % phases`.

    The Rust clock owns a boxed `FnMut()` callback that it calls once per
    tick.  Here the callback's effect is a function on an environment `E`
    (whatever the closure captures), passed to each tick, and the clock
    record holds the rest of the state. */
module Clock {

  /** A Rust `u32`. */
  type U32 = x: nat | x < 0x1_0000_0000

  datatype SystemClock = SystemClock(
    phase: U32,
    phases: U32,
    quadratureClocks: seq<bool>,
    frequency: U32)

  /** Line `k` is high and every other line is low. */
  ghost predicate OneHotAt(clocks: seq<bool>, k: nat) {
    forall i :: 0 <= i < |clocks| ==> (clocks[i] <==> i == k)
  }

  /** The clock's own requirements on itself: the modulo in `tick` needs a
      nonzero `phases`, and its indexing needs one line per phase. */
  predicate Ready(c: SystemClock) {
    c.phases > 0 && |c.quadratureClocks| == c.phases
  }

  /** `SystemClock::new`: phase 0 and `phases` lines, all low. */
  function New(phases: U32, frequency: U32): (c: SystemClock)
    ensures c.phase == 0 && c.phases == phases && c.frequency == frequency
    ensures |c.quadratureClocks| == phases
    ensures forall i :: 0 <= i < |c.quadratureClocks| ==> !c.quadratureClocks[i]
    ensures phases > 0 ==> Ready(c)
  {
    SystemClock(0, phases, seq(phases, _ => false), frequency)
  }

  /** `tick`: advances the phase by one, drops every line, raises the line
      at the new `phase % phases`, and then runs the callback.  `phase += 1`
      on the largest `u32` overflows, which a debug build rejects. */
  function Tick<E>(c: SystemClock, env: E, callback: E -> E): (r: (SystemClock, E))
    requires Ready(c) && c.phase < 0xFFFF_FFFF
    ensures Ready(r.0)
    ensures r.0.phase == c.phase + 1
    ensures r.0.phases == c.phases && r.0.frequency == c.frequency
    ensures OneHotAt(r.0.quadratureClocks, r.0.phase % c.phases)
    ensures r.1 == callback(env)
  {
    var phase := c.phase + 1;
    var cleared := seq(|c.quadratureClocks|, _ => false);
    var clocks := cleared[phase % c.phases := true];
    (c.(phase := phase, quadratureClocks := clocks), callback(env))
  }

  /** `f` applied `n` times. */
  function Apply<E>(f: E -> E, x: E, n: nat): (r: E)
    decreases n
  {
    if n == 0 then x else Apply(f, f(x), n - 1)
  }

  /** `n` consecutive ticks, as `start` performs them (without its sleeps). */
  function Run<E>(c: SystemClock, env: E, callback: E -> E, n: nat): (r: (SystemClock, E))
    requires Ready(c) && c.phase + n < 0x1_0000_0000
    ensures Ready(r.0)
    ensures r.0.phase == c.phase + n
    ensures r.0.phases == c.phases && r.0.frequency == c.frequency
    ensures n > 0 ==> OneHotAt(r.0.quadratureClocks, r.0.phase % c.phases)
    ensures n == 0 ==> r.0 == c
    ensures r.1 == Apply(callback, env, n)
    decreases n
  {
    if n == 0 then (c, env)
    else
      var next := Tick(c, env, callback);
      Run(next.0, next.1, callback, n - 1)
  }

  // ---------------------------------------------------------------------------
  // Properties

  /** The lines that are high. */
  ghost function HighLines(clocks: seq<bool>): (lines: set<nat>) {
    set i: nat | i < |clocks| && clocks[i]
  }

  /** A one-hot ring has exactly one high line. */
  lemma OneHotHasOneHighLine(clocks: seq<bool>, k: nat)
    requires OneHotAt(clocks, k) && k < |clocks|
    ensures HighLines(clocks) == {k}
    ensures |HighLines(clocks)| == 1
  {
    assert clocks[k];
    assert HighLines(clocks) == {k};
  }

  /** After any tick, exactly one line is high, the one at `phase % phases`. */
  lemma TickHasOneHighLine<E>(c: SystemClock, env: E, callback: E -> E)
    requires Ready(c) && c.phase < 0xFFFF_FFFF
    ensures HighLines(Tick(c, env, callback).0.quadratureClocks)
            == {Tick(c, env, callback).0.phase % c.phases}
  {
    var next := Tick(c, env, callback).0;
    OneHotHasOneHighLine(next.quadratureClocks, next.phase % c.phases);
  }

  /** The first tick after `new` raises line `1 % phases`, not line 0: the
      phase is incremented before it is used. */
  lemma FirstTickSkipsLineZero<E>(phases: U32, frequency: U32, env: E, callback: E -> E)
    requires phases > 0
    ensures Tick(New(phases, frequency), env, callback).0.quadratureClocks[1 % phases]
    ensures phases > 1 ==> !Tick(New(phases, frequency), env, callback).0.quadratureClocks[0]
  {
  }

  /** `n` ticks from `new` leave phase `n`, the line `n % phases` high, and
      the callback run `n` times. */
  lemma RunFromNew<E>(phases: U32, frequency: U32, env: E, callback: E -> E, n: nat)
    requires phases > 0 && 0 < n < 0x1_0000_0000
    ensures Run(New(phases, frequency), env, callback, n).0.phase == n
    ensures OneHotAt(Run(New(phases, frequency), env, callback, n).0.quadratureClocks, n % phases)
    ensures Run(New(phases, frequency), env, callback, n).1 == Apply(callback, env, n)
  {
  }

  /** A callback that counts its calls counts the ticks: it runs exactly
      once per tick. */
  lemma {:induction false} CallbackOncePerTick(start: int, n: nat)
    ensures Apply((x: int) => x + 1, start, n) == start + n
    decreases n
  {
    if n > 0 {
      CallbackOncePerTick(start + 1, n - 1);
    }
  }
}

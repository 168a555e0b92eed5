/** The buffer in front of the analytics sink: records wait in a channel, then in a batch,
    and batches are flushed with retries. */
module BatchBuffer {
  import opened Records

  datatype Config = Config(batchSize: int, flushInterval: int, maxRetries: int, baseBackoff: int)

  /** The configuration with its defaults filled in (times in milliseconds). */
  function Effective(c: Config): (e: Config)
    ensures e.batchSize >= 1 && e.flushInterval >= 1 && e.maxRetries >= 1 && e.baseBackoff >= 1
  {
    Config(if c.batchSize <= 0 then 1000 else c.batchSize, if c.flushInterval <= 0 then 5000 else c.flushInterval,
           if c.maxRetries <= 0 then 3 else c.maxRetries, if c.baseBackoff <= 0 then 100 else c.baseBackoff)
  }

  /** A setting that makes sense is taken as it is, any other is replaced by its default. */
  lemma EffectiveMeans(c: Config)
    ensures c.batchSize >= 1 ==> Effective(c).batchSize == c.batchSize
    ensures c.batchSize < 1 ==> Effective(c).batchSize == 1000
    ensures c.flushInterval >= 1 ==> Effective(c).flushInterval == c.flushInterval
    ensures c.flushInterval < 1 ==> Effective(c).flushInterval == 5000
    ensures c.maxRetries >= 1 ==> Effective(c).maxRetries == c.maxRetries
    ensures c.maxRetries < 1 ==> Effective(c).maxRetries == 3
    ensures c.baseBackoff >= 1 ==> Effective(c).baseBackoff == c.baseBackoff
    ensures c.baseBackoff < 1 ==> Effective(c).baseBackoff == 100
  {
  }

  /** One flush: what was sent, how often, whether it arrived, and the time slept between. */
  datatype Flush = Flush(records: seq<Record>, attempts: nat, delivered: bool, slept: int)

  function Pow2(n: nat): (p: nat)
    ensures p >= 1
  {
    if n == 0 then 1 else 2 * Pow2(n - 1)
  }

  lemma {:induction false} Pow2Monotone(m: nat, n: nat)
    requires m <= n
    ensures Pow2(m) <= Pow2(n)
  {
    if m < n { Pow2Monotone(m, n - 1); }
  }

  /** What the retry policy promises of a flush, given which attempts the sink refuses. */
  ghost predicate Obeys(c: Config, refuses: nat -> bool, f: Flush) {
    && 1 <= f.attempts <= c.maxRetries + 1
    && (forall i :: 0 <= i < f.attempts - 1 ==> refuses(i))
    && (f.delivered <==> !refuses(f.attempts - 1))
    && (!f.delivered ==> f.attempts == c.maxRetries + 1)
    && f.slept == (Pow2(f.attempts - 1) - 1) * c.baseBackoff
  }

  /** A flush sleeps at most (2^MaxRetries - 1) * BaseBackoff, and gives up exactly when
      the sink refuses every attempt. */
  lemma FlushBounds(c: Config, refuses: nat -> bool, f: Flush)
    requires Obeys(c, refuses, f) && c.maxRetries >= 1 && c.baseBackoff >= 1
    ensures 0 <= f.slept <= (Pow2(c.maxRetries) - 1) * c.baseBackoff
    ensures !f.delivered <==> forall i :: 0 <= i <= c.maxRetries ==> refuses(i)
  {
    Pow2Monotone(f.attempts - 1, c.maxRetries);
    Scale(Pow2(f.attempts - 1) - 1, Pow2(c.maxRetries) - 1, c.baseBackoff);
    if f.delivered { assert f.attempts - 1 <= c.maxRetries; }
  }

  lemma Scale(a: int, b: int, k: int)
    requires 0 <= a <= b && k >= 0
    ensures 0 <= a * k <= b * k
  {
  }

  /** No wait before the first attempt, the base before the second, and from then on each
      wait is twice the one before. */
  lemma WaitsDouble(c: Config, once: nat -> bool, twice: nat -> bool, thrice: nat -> bool, f: Flush, g: Flush,
      h: Flush)
    requires Obeys(c, once, f) && Obeys(c, twice, g) && Obeys(c, thrice, h)
    requires g.attempts == f.attempts + 1 && h.attempts == g.attempts + 1
    ensures f.attempts == 1 ==> f.slept == 0 && g.slept == c.baseBackoff
    ensures h.slept - g.slept == 2 * (g.slept - f.slept)
  {
    var p := Pow2(f.attempts - 1);
    assert Pow2(g.attempts - 1) == 2 * p && Pow2(h.attempts - 1) == 4 * p;
    assert (2 * p - 1) * c.baseBackoff - (p - 1) * c.baseBackoff == p * c.baseBackoff;
    assert (4 * p - 1) * c.baseBackoff - (2 * p - 1) * c.baseBackoff == 2 * p * c.baseBackoff;
  }

  function Flushed(fs: seq<Flush>): seq<Record> {
    if fs == [] then [] else fs[0].records + Flushed(fs[1..])
  }

  lemma {:induction false} FlushedAppend(fs: seq<Flush>, f: Flush)
    ensures Flushed(fs + [f]) == Flushed(fs) + f.records
  {
    if fs == [] {
      assert fs + [f] == [f] && [f][1..] == [];
    } else {
      assert (fs + [f])[0] == fs[0] && (fs + [f])[1..] == fs[1..] + [f];
      FlushedAppend(fs[1..], f);
    }
  }

  /** The state between two steps of the loop: nothing is lost or reordered on the way from
      Enqueue to the sink, and batches keep to their size. */
  ghost predicate Conserved(c: Config, enqueued: seq<Record>, flushes: seq<Flush>, buf: seq<Record>, ch: seq<Record>) {
    && enqueued == Flushed(flushes) + buf + ch
    && |buf| < c.batchSize && |ch| <= 2 * c.batchSize
    && Sized(c, flushes)
  }

  ghost predicate Sized(c: Config, flushes: seq<Flush>) {
    forall i :: 0 <= i < |flushes| ==>
      && 1 <= |flushes[i].records| <= c.batchSize
      && 1 <= flushes[i].attempts <= c.maxRetries + 1
      && (!flushes[i].delivered ==> flushes[i].attempts == c.maxRetries + 1)
  }

  lemma Received(c: Config, enqueued: seq<Record>, flushes: seq<Flush>, buf: seq<Record>, ch: seq<Record>)
    requires Conserved(c, enqueued, flushes, buf, ch) && ch != []
    ensures enqueued == Flushed(flushes) + (buf + [ch[0]]) + ch[1..]
  {
  }

  lemma Sent(c: Config, enqueued: seq<Record>, flushes: seq<Flush>, buf: seq<Record>, ch: seq<Record>,
      refuses: nat -> bool, f: Flush)
    requires enqueued == Flushed(flushes) + buf + ch && |ch| <= 2 * c.batchSize && Sized(c, flushes)
    requires f.records == buf && 1 <= |buf| <= c.batchSize && Obeys(c, refuses, f)
    ensures Conserved(c, enqueued, flushes + [f], [], ch)
  {
    FlushedAppend(flushes, f);
    assert Flushed(flushes) + buf + [] + ch == Flushed(flushes) + buf + ch;
  }

  class Buffer {
    const cfg: Config
    var ch: seq<Record>
    var buf: seq<Record>
    var closed: bool
    var exited: bool
    var flushes: seq<Flush>
    ghost var enqueued: seq<Record>

    ghost predicate Valid()
      reads this
    {
      && cfg == Effective(cfg)
      && Conserved(cfg, enqueued, flushes, buf, ch)
      && (exited ==> closed && ch == [] && buf == [])
    }

    constructor (c: Config)
      ensures Valid() && cfg == Effective(c) && enqueued == [] && flushes == [] && !closed
    {
      cfg := Effective(c);
      ch, buf, closed, exited, flushes, enqueued := [], [], false, false, [], [];
    }

    /** Sends on the channel if there is room; otherwise the caller would block. Sending
        after Close panics, so callers must not. */
    method Enqueue(r: Record) returns (sent: bool)
      requires Valid() && !closed
      modifies this
      ensures Valid() && !closed && exited == old(exited) && flushes == old(flushes) && buf == old(buf)
      ensures sent <==> |old(ch)| < 2 * cfg.batchSize
      ensures enqueued == if sent then old(enqueued) + [r] else old(enqueued)
      ensures ch == if sent then old(ch) + [r] else old(ch)
    {
      if |ch| == 2 * cfg.batchSize { return false; }
      ch := ch + [r];
      enqueued := enqueued + [r];
      sent := true;
    }

    /** The retry loop: `refuses(i)` says whether the sink refuses attempt `i`. */
    method Send(records: seq<Record>, refuses: nat -> bool) returns (f: Flush)
      requires cfg == Effective(cfg)
      ensures f.records == records && Obeys(cfg, refuses, f)
    {
      var slept := 0;
      for attempt := 0 to cfg.maxRetries + 1
        invariant forall i :: 0 <= i < attempt ==> refuses(i)
        invariant attempt <= cfg.maxRetries ==> slept == (Pow2(attempt) - 1) * cfg.baseBackoff
        invariant attempt == cfg.maxRetries + 1 ==> slept == (Pow2(cfg.maxRetries) - 1) * cfg.baseBackoff
      {
        if !refuses(attempt) { return Flush(records, attempt + 1, true, slept); }
        if attempt < cfg.maxRetries {
          Doubled(Pow2(attempt), cfg.baseBackoff);
          slept := slept + Pow2(attempt) * cfg.baseBackoff;
        }
      }
      f := Flush(records, cfg.maxRetries + 1, false, slept);
    }

    method FlushBuffer(refuses: nat -> bool)
      requires cfg == Effective(cfg) && 1 <= |buf| <= cfg.batchSize && |ch| <= 2 * cfg.batchSize
      requires enqueued == Flushed(flushes) + buf + ch && Sized(cfg, flushes) && !exited
      modifies this
      ensures Valid() && buf == [] && ch == old(ch) && enqueued == old(enqueued)
      ensures closed == old(closed) && !exited
      ensures |flushes| == |old(flushes)| + 1 && flushes[..|old(flushes)|] == old(flushes)
      ensures flushes[|old(flushes)|].records == old(buf) && Obeys(cfg, refuses, flushes[|old(flushes)|])
      ensures Flushed(flushes) == Flushed(old(flushes)) + old(buf)
    {
      var f := Send(buf, refuses);
      FlushedAppend(flushes, f);
      Sent(cfg, enqueued, flushes, buf, ch, refuses, f);
      flushes := flushes + [f];
      buf := [];
    }

    /** The loop takes a record from the channel, or sees that it is closed and drained. */
    method Receive(refuses: nat -> bool)
      requires Valid() && !exited && (ch != [] || closed)
      modifies this
      ensures Valid() && enqueued == old(enqueued) && closed == old(closed)
      ensures exited <==> old(ch) == []
      ensures ch == if old(ch) == [] then [] else old(ch)[1..]
      ensures var pending := if old(ch) == [] then old(buf) else old(buf) + [old(ch)[0]];
              if exited || |pending| >= cfg.batchSize then
                buf == [] && Flushed(flushes) == Flushed(old(flushes)) + pending
              else
                buf == pending && flushes == old(flushes)
    {
      if ch == [] {
        if |buf| > 0 { FlushBuffer(refuses); }
        exited := true;
        return;
      }
      Received(cfg, enqueued, flushes, buf, ch);
      buf, ch := buf + [ch[0]], ch[1..];
      if |buf| >= cfg.batchSize { FlushBuffer(refuses); }
    }

    /** The timer fires. */
    method Tick(refuses: nat -> bool)
      requires Valid() && !exited
      modifies this
      ensures Valid() && enqueued == old(enqueued) && ch == old(ch) && closed == old(closed) && !exited
      ensures buf == [] && Flushed(flushes) == Flushed(old(flushes)) + old(buf)
    {
      if |buf| > 0 { FlushBuffer(refuses); }
    }

    /** Close waits for the loop to drain the channel, whenever the timer fires meanwhile:
        everything ever enqueued has been flushed, in order. A second Close does nothing. */
    method Close(fires: nat -> bool, refuses: nat -> nat -> bool)
      requires Valid() && (closed ==> exited)
      modifies this
      ensures Valid() && closed && exited && enqueued == old(enqueued)
      ensures ch == [] && buf == [] && Flushed(flushes) == enqueued
      ensures old(closed) ==> flushes == old(flushes)
    {
      if !closed {
        closed := true;
        var n := 0;
        while !exited
          invariant Valid() && closed && enqueued == old(enqueued)
          decreases !exited, |ch|, |buf|
        {
          if fires(n) && buf != [] {
            Tick(refuses(n));
          } else {
            Receive(refuses(n));
          }
          n := n + 1;
        }
      }
      assert Flushed(flushes) + [] + [] == Flushed(flushes);
    }
  }

  lemma Doubled(p: int, base: int)
    ensures (p - 1) * base + p * base == (2 * p - 1) * base
  {
  }
}

/** Timing statistics of the git invocations (`src/stats.rs`): one record per
    command name plus an overall record. A `Duration` is a whole number of
    nanoseconds here. The thread-local instance becomes an explicit `GitStats`
    object handed to `RecordGitCommand`. */
module Stats {
  import opened Wrappers

  /** The sum of a sequence of durations. */
  function Sum(ds: seq<nat>): nat
    decreases |ds|, 1
  {
    if ds == [] then 0 else SumInit(ds) + ds[|ds| - 1]
  }

  /** The sum of all but the last duration (a separate step, so that the
      verifier unfolds `Sum` one duration at a time). */
  function SumInit(ds: seq<nat>): nat
    requires ds != []
    decreases |ds|, 0
  {
    Sum(ds[..|ds| - 1])
  }

  /** The running maximum `record` keeps: the default zero, replaced by every
      duration that is strictly larger. */
  function MaxOf(ds: seq<nat>): nat
    decreases |ds|, 1
  {
    if ds == [] then 0
    else
      var m := MaxInit(ds);
      if ds[|ds| - 1] > m then ds[|ds| - 1] else m
  }

  /** The running maximum before the last duration. */
  function MaxInit(ds: seq<nat>): nat
    requires ds != []
    decreases |ds|, 0
  {
    MaxOf(ds[..|ds| - 1])
  }

  /** The running maximum is at least every duration and is one of them. */
  lemma {:induction false} MaxOfBounds(ds: seq<nat>)
    ensures forall i :: 0 <= i < |ds| ==> ds[i] <= MaxOf(ds)
    ensures ds == [] ==> MaxOf(ds) == 0
    ensures ds != [] ==> MaxOf(ds) in ds
  {
    if ds != [] {
      var init := ds[..|ds| - 1];
      MaxOfBounds(init);
      assert forall i :: 0 <= i < |init| ==> ds[i] == init[i];
    }
  }

  /** The whole-nanosecond average of `count` durations adding up to `total`,
      zero when there are none. */
  function Average(total: nat, count: nat): (r: nat)
    ensures count == 0 ==> r == 0
    ensures count > 0 ==> r * count <= total < (r + 1) * count
  {
    if count == 0 then 0 else total / count
  }

  /** Durations all at most `m` add up to at most their number times `m`. */
  lemma {:induction false} SumAtMost(ds: seq<nat>, m: nat)
    requires forall i :: 0 <= i < |ds| ==> ds[i] <= m
    ensures Sum(ds) <= |ds| * m
  {
    if ds != [] {
      var init := ds[..|ds| - 1];
      assert forall i :: 0 <= i < |init| ==> init[i] == ds[i];
      SumAtMost(init, m);
      MulSucc(|init|, m);
    }
  }

  lemma MulSucc(a: nat, n: nat)
    ensures (a + 1) * n == a * n + n
  {
  }

  lemma MulMonotone(a: nat, b: nat, n: nat)
    requires a <= b
    ensures a * n <= b * n
  {
  }

  /** The average of the recorded durations is never above their maximum. */
  lemma AverageAtMostMax(ds: seq<nat>)
    ensures Average(Sum(ds), |ds|) <= MaxOf(ds)
  {
    var m := MaxOf(ds);
    MaxOfBounds(ds);
    SumAtMost(ds, m);
    if ds != [] {
      var n := |ds|;
      var r := Average(Sum(ds), n);
      if r > m {
        MulMonotone(m + 1, r, n);
        MulSucc(m, n);
      }
    }
  }

  /** `avg_duration` as written: the count is cast to `u32` before the division,
      so it is taken modulo 2^32; a cast count of zero makes the division panic
      (`None`). */
  function AvgDurationAsWritten(total: nat, count: nat): (r: Option<nat>)
    requires count < 0x1_0000_0000_0000_0000
    ensures count == 0 ==> r == Some(0)
    ensures 0 < count < 0x1_0000_0000 ==> r == Some(Average(total, count))
    ensures r.None? <==> count != 0 && count % 0x1_0000_0000 == 0
  {
    if count == 0 then Some(0)
    else
      var divisor := count % 0x1_0000_0000;
      if divisor == 0 then None else Some(total / divisor)
  }

  /** After 2^32 records the cast count is zero and the division panics. */
  lemma AvgDurationPanicsAtTwoToThe32()
    ensures AvgDurationAsWritten(7, 0x1_0000_0000).None?
  {
  }

  /** After 2^32 + 1 records of one nanosecond each the cast count is 1, so the
      reported average is the whole total instead of one nanosecond. */
  lemma AvgDurationWrongAfterTwoToThe32()
    ensures AvgDurationAsWritten(0x1_0000_0001, 0x1_0000_0001) == Some(0x1_0000_0001)
    ensures Average(0x1_0000_0001, 0x1_0000_0001) == 1
  {
  }

  /** `CommandStats`: how often one kind of git command ran, for how long in
      total, and the longest run. `durations` is the history that explains the
      three counters. */
  class CommandStats {
    var count: nat
    var totalDuration: nat
    var maxDuration: nat
    ghost var durations: seq<nat>

    ghost predicate Valid()
      reads this
    {
      count == |durations| && totalDuration == Sum(durations) && maxDuration == MaxOf(durations)
    }

    /** `CommandStats::default()`. */
    constructor ()
      ensures Valid() && durations == []
      ensures count == 0 && totalDuration == 0 && maxDuration == 0
    {
      count, totalDuration, maxDuration := 0, 0, 0;
      durations := [];
    }

    /** `record`: one more run of the given duration. */
    method Record(duration: nat)
      requires Valid()
      modifies this
      ensures Valid() && durations == old(durations) + [duration]
      ensures count == old(count) + 1 && totalDuration == old(totalDuration) + duration
      ensures maxDuration == (if duration > old(maxDuration) then duration else old(maxDuration))
    {
      count := count + 1;
      totalDuration := totalDuration + duration;
      if duration > maxDuration {
        maxDuration := duration;
      }
      durations := durations + [duration];
      assert durations[..|durations| - 1] == old(durations);
    }

    /** `avg_duration`, with the count used as it is (see `AvgDurationAsWritten`
        for the cast the source applies). */
    function AvgDuration(): (r: nat)
      reads this
      ensures count == 0 ==> r == 0
      ensures count > 0 ==> r * count <= totalDuration < (r + 1) * count
    {
      Average(totalDuration, count)
    }
  }

  /** The sum of the values of a map of counts. */
  ghost function CountSum(m: map<string, nat>): nat
    decreases |m|
  {
    if m == map[] then 0
    else
      var k :| k in m;
      m[k] + CountSum(m - {k})
  }

  /** `CountSum` may take the keys in any order. */
  lemma {:induction false} CountSumRemove(m: map<string, nat>, k: string)
    requires k in m
    ensures CountSum(m) == m[k] + CountSum(m - {k})
    decreases |m|
  {
    var j :| j in m && CountSum(m) == m[j] + CountSum(m - {j});
    if j != k {
      CountSumRemove(m - {j}, k);
      CountSumRemove(m - {k}, j);
      assert m - {j} - {k} == m - {k} - {j};
    }
  }

  /** Raising one entry by one, or adding it with a one, raises the sum by one. */
  lemma CountSumIncrement(m: map<string, nat>, k: string)
    ensures CountSum(m[k := (if k in m then m[k] else 0) + 1]) == CountSum(m) + 1
  {
    var m' := m[k := (if k in m then m[k] else 0) + 1];
    CountSumRemove(m', k);
    assert m' - {k} == m - {k};
    if k in m {
      CountSumRemove(m, k);
    } else {
      assert m - {k} == m;
    }
  }

  /** The number of durations in each history. */
  function Lengths(h: map<string, seq<nat>>): (m: map<string, nat>)
    ensures m.Keys == h.Keys && forall k :: k in h ==> m[k] == |h[k]|
  {
    map k | k in h :: |h[k]|
  }

  /** Extending the history of one command, or starting it, raises the overall
      count by exactly one. */
  lemma RecordOneMore(h: map<string, seq<nat>>, command: string, duration: nat)
    ensures CountSum(Lengths(h[command := (if command in h then h[command] else []) + [duration]]))
      == CountSum(Lengths(h)) + 1
  {
    var m := Lengths(h);
    assert Lengths(h[command := (if command in h then h[command] else []) + [duration]])
      == m[command := (if command in m then m[command] else 0) + 1];
    CountSumIncrement(m, command);
  }

  /** `GitStats`: the records of the individual commands, keyed by the command
      name, and the overall record. Each map entry owns its record; `histories`
      holds the durations each of them has seen. */
  class GitStats {
    var byCommand: map<string, CommandStats>
    var total: CommandStats
    ghost var histories: map<string, seq<nat>>

    /** The per-command records are separate objects, each explaining its
        counters by its history. */
    ghost predicate EntriesValid()
      reads this, byCommand.Values
    {
      && histories.Keys == byCommand.Keys
      && (forall k :: k in byCommand ==> byCommand[k].Valid() && byCommand[k].durations == histories[k])
      && (forall k, k' :: k in byCommand && k' in byCommand && k != k' ==> byCommand[k] != byCommand[k'])
    }

    /** The overall record is separate from the per-command ones, and its count
        is the sum of theirs. */
    ghost predicate Valid()
      reads this, total, byCommand.Values
    {
      && EntriesValid()
      && total !in byCommand.Values
      && total.Valid()
      && total.count == CountSum(Lengths(histories))
    }

    /** `GitStats::default()`. */
    constructor ()
      ensures Valid() && byCommand == map[] && histories == map[] && total.durations == []
    {
      byCommand := map[];
      total := new CommandStats();
      histories := map[];
    }

    /** `GitStats::record`: the run is added to the overall history and to the
        history of `command`, which is started when missing; every other
        command's history is left as it was. */
    method Record(command: string, duration: nat)
      requires Valid()
      modifies this, total, byCommand.Values
      ensures Valid() && total == old(total)
      ensures total.durations == old(total.durations) + [duration]
      ensures histories ==
        old(histories)[command := (if command in old(histories) then old(histories[command]) else []) + [duration]]
    {
      ghost var next := histories[command := (if command in histories then histories[command] else []) + [duration]];
      RecordOneMore(histories, command, duration);
      total.Record(duration);
      if command in byCommand {
        UpdateEntry(command, duration);
      } else {
        InsertEntry(command, duration);
        assert [] + [duration] == [duration];
      }
      assert histories == next;
      assert total !in byCommand.Values;
      assert total.Valid();
    }

    /** `entry(command).or_default().record(..)` for a command seen before. */
    method UpdateEntry(command: string, duration: nat)
      requires EntriesValid() && command in byCommand && total !in byCommand.Values
      modifies this, byCommand[command]
      ensures EntriesValid() && byCommand == old(byCommand) && total == old(total) && unchanged(total)
      ensures histories == old(histories)[command := old(histories[command]) + [duration]]
    {
      var entry := byCommand[command];
      entry.Record(duration);
      histories := histories[command := histories[command] + [duration]];
    }

    /** `entry(command).or_default().record(..)` for a new command. */
    method InsertEntry(command: string, duration: nat)
      requires EntriesValid() && command !in byCommand && total !in byCommand.Values
      modifies this
      ensures EntriesValid() && total == old(total) && unchanged(total) && total !in byCommand.Values
      ensures command in byCommand && fresh(byCommand[command])
      ensures byCommand == old(byCommand)[command := byCommand[command]]
      ensures histories == old(histories)[command := [duration]]
    {
      var entry := new CommandStats();
      entry.Record(duration);
      byCommand := byCommand[command := entry];
      histories := histories[command := [duration]];
    }
  }

  /** The key a git invocation is counted under: its first argument, or
      "unknown" when it has none. */
  function CommandKey(args: seq<string>): (r: string)
    ensures args != [] ==> r == args[0]
    ensures args == [] ==> r == "unknown"
  {
    if args == [] then "unknown" else args[0]
  }

  /** `record_git_command`, with the thread-local statistics passed in. */
  method RecordGitCommand(stats: GitStats, args: seq<string>, duration: nat)
    requires stats.Valid()
    modifies stats, stats.total, stats.byCommand.Values
    ensures stats.Valid()
    ensures stats.total.durations == old(stats.total.durations) + [duration]
    ensures var key := CommandKey(args);
      stats.histories == old(stats.histories)[key := (if key in old(stats.histories) then old(stats.histories[key]) else []) + [duration]]
  {
    stats.Record(CommandKey(args), duration);
  }
}

/**
 * niuauth/utils.py: `user_reward`, the one place reputation changes, and
 * the once-only flags its callers guard it with.
 */
module AuthUtils {
  import opened Wrappers
  import opened AuthModels

  /**
   * `user_reward`: adds the configured amount for `rewardType` to the
   * reputation and records the change in the ledger. An unknown reward type
   * raises KeyError before anything changes; `ok` is false then.
   */
  method UserReward(p: Profile, repGet: map<int, int>, rewardType: int, topicId: Option<int>, nodeId: Option<int>)
    returns (ok: bool)
    modifies p`reputation, p`repuStat
    ensures ok <==> rewardType in repGet
    ensures ok ==> p.reputation == old(p.reputation) + repGet[rewardType]
    ensures ok ==> p.repuStat == old(p.repuStat) + [ReputationStat(rewardType, repGet[rewardType], p.reputation, topicId, nodeId)]
    ensures !ok ==> p.reputation == old(p.reputation) && p.repuStat == old(p.repuStat)
  {
    if rewardType !in repGet {
      return false;
    }
    var amount := repGet[rewardType];
    var total := p.reputation + amount;
    var stat := ReputationStat(rewardType, amount, total, topicId, nodeId);
    p.repuStat := p.repuStat + [stat];
    p.reputation := total;
    ok := true;
  }

  /**
   * The ledger explains the reputation: each entry's total is the previous
   * total plus its amount, starting from `start`, and the last total is the
   * current reputation.
   */
  ghost predicate Ledger(start: int, stats: seq<ReputationStat>, reputation: int)
    decreases |stats|
  {
    if stats == [] then reputation == start
    else stats[0].total == start + stats[0].amount && Ledger(stats[0].total, stats[1..], reputation)
  }

  function SumAmounts(stats: seq<ReputationStat>): int
  {
    if stats == [] then 0 else stats[0].amount + SumAmounts(stats[1..])
  }

  /** A consistent ledger's amounts add up to the change in reputation. */
  lemma {:induction false} LedgerSums(start: int, stats: seq<ReputationStat>, reputation: int)
    requires Ledger(start, stats, reputation)
    ensures reputation == start + SumAmounts(stats)
    decreases |stats|
  {
    if stats != [] {
      LedgerSums(stats[0].total, stats[1..], reputation);
    }
  }

  /** Appending the entry `user_reward` writes keeps the ledger consistent. */
  lemma {:induction false} LedgerExtends(start: int, stats: seq<ReputationStat>, reputation: int, s: ReputationStat)
    requires Ledger(start, stats, reputation)
    requires s.total == reputation + s.amount
    ensures Ledger(start, stats + [s], s.total)
    decreases |stats|
  {
    if stats == [] {
      assert [s][1..] == [];
    } else {
      assert (stats + [s])[1..] == stats[1..] + [s];
      LedgerExtends(stats[0].total, stats[1..], reputation, s);
    }
  }

  /** `user_reward` keeps a profile's ledger consistent with its reputation. */
  method RewardKeepsLedger(p: Profile, start: int, repGet: map<int, int>, rewardType: int)
    returns (ok: bool)
    requires Ledger(start, p.repuStat, p.reputation)
    modifies p`reputation, p`repuStat
    ensures Ledger(start, p.repuStat, p.reputation)
    ensures ok <==> rewardType in repGet
  {
    ghost var before := p.repuStat;
    ghost var rep := p.reputation;
    ok := UserReward(p, repGet, rewardType, None, None);
    if ok {
      LedgerExtends(start, before, rep, p.repuStat[|p.repuStat| - 1]);
    }
  }

  /** There is no idempotence guard: two calls pay twice and write two entries. */
  method RewardTwice(p: Profile, repGet: map<int, int>, rewardType: int)
    requires rewardType in repGet
    modifies p`reputation, p`repuStat
    ensures p.reputation == old(p.reputation) + 2 * repGet[rewardType]
    ensures var a := repGet[rewardType];
      p.repuStat == old(p.repuStat) + [ReputationStat(rewardType, a, old(p.reputation) + a, None, None),
                                       ReputationStat(rewardType, a, old(p.reputation) + 2 * a, None, None)]
  {
    var ok1 := UserReward(p, repGet, rewardType, None, None);
    var ok2 := UserReward(p, repGet, rewardType, None, None);
  }

  /** The guard each caller puts around `user_reward`: not yet paid, and the condition holds. */
  predicate RewardDue(paid: bool, condition: bool)
  {
    !paid && condition
  }

  /**
   * How often a flag-guarded reward pays out over successive checks: each
   * check pays when it is due and then sets the flag.
   */
  function Payouts(paid: bool, conditions: seq<bool>): nat
    decreases |conditions|
  {
    if conditions == [] then 0
    else
      var due := RewardDue(paid, conditions[0]);
      (if due then 1 else 0) + Payouts(paid || due, conditions[1..])
  }

  /** A guarded reward pays at most once, and exactly once when unpaid and some check finds the condition. */
  lemma {:induction false} PaidAtMostOnce(paid: bool, conditions: seq<bool>)
    ensures Payouts(paid, conditions) <= 1
    ensures Payouts(paid, conditions) == 1 <==> !paid && true in conditions
    decreases |conditions|
  {
    if conditions != [] {
      PaidAtMostOnce(paid || RewardDue(paid, conditions[0]), conditions[1..]);
      NeverAgain(conditions[1..]);
      assert true in conditions <==> conditions[0] || true in conditions[1..];
    }
  }

  /** Once the flag is set, no later check pays. */
  lemma {:induction false} NeverAgain(conditions: seq<bool>)
    ensures Payouts(true, conditions) == 0
    decreases |conditions|
  {
    if conditions != [] {
      NeverAgain(conditions[1..]);
    }
  }

  /** The conditions successive reply commits see: a reply count reaching the threshold. */
  function CountReached(count: int, commits: nat, threshold: int): (cs: seq<bool>)
    ensures |cs| == commits
    ensures forall k :: 0 <= k < commits ==> cs[k] == (count + k + 1 >= threshold)
    decreases commits
  {
    if commits == 0 then [] else [count + 1 >= threshold] + CountReached(count + 1, commits - 1, threshold)
  }

  /**
   * Over any run of reply commits starting from `count`, the author is paid
   * exactly once if the flag was unset and the count reaches the threshold,
   * and never otherwise.
   */
  lemma ReplyRewardOnce(paid: bool, count: int, commits: nat, threshold: int)
    ensures Payouts(paid, CountReached(count, commits, threshold)) ==
      if !paid && commits >= 1 && count + commits >= threshold then 1 else 0
  {
    var cs := CountReached(count, commits, threshold);
    PaidAtMostOnce(paid, cs);
    if commits >= 1 && count + commits >= threshold {
      assert cs[commits - 1];
    }
  }

  /** Payouts when the flag a caller sets is never stored: every due check pays. */
  function PayoutsUnsaved(paid: bool, conditions: seq<bool>): nat
    decreases |conditions|
  {
    if conditions == [] then 0
    else (if RewardDue(paid, conditions[0]) then 1 else 0) + PayoutsUnsaved(paid, conditions[1..])
  }

  /** Without the stored flag, every check that finds the condition pays. */
  lemma {:induction false} UnsavedPaysEveryTime(conditions: seq<bool>)
    ensures PayoutsUnsaved(false, conditions) == multiset(conditions)[true]
    decreases |conditions|
  {
    if conditions != [] {
      UnsavedPaysEveryTime(conditions[1..]);
      assert conditions == [conditions[0]] + conditions[1..];
    }
  }

  /** Without the stored flag, two checks that find the condition pay twice. */
  lemma UnsavedFlagPaysTwice()
    ensures PayoutsUnsaved(false, [true, true]) == 2
    ensures Payouts(false, [true, true]) == 1
  {
  }
}

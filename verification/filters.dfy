/** The stateless score filters shared by both decoders: the repetition
    penalty (src/pipelines/generation.rs:385-397), repeated n-gram banning
    (399-443) and the end-of-sequence mask used before `min_length`
    (503-506, 609-612). */
module Filters {

  import opened Basics
  import opened Scores

  // ---------------------------------------------------------------------
  // Repetition penalty

  /** One rescaling of a logit: negative values are multiplied by the
      penalty, the others divided by it (infinities stay put). The sign is
      kept, and a penalty of at least one moves the logit down. */
  function PenaliseOnce(v: Score, penalty: PosReal): (r: Score)
    ensures r.Fin? <==> v.Fin?
    ensures !v.Fin? ==> r == v
    ensures v.Fin? ==> (r.v < 0.0 <==> v.v < 0.0) && (r.v == 0.0 <==> v.v == 0.0)
    ensures penalty >= 1.0 ==> Le(r, v)
  {
    assert v.Fin? && v.v < 0.0 && penalty >= 1.0 ==> v.v * penalty <= v.v * 1.0;
    assert v.Fin? && v.v >= 0.0 && penalty >= 1.0 ==> v.v / penalty <= v.v;
    match v
    case Fin(x) => if x < 0.0 then Fin(x * penalty) else Fin(x / penalty)
    case _ => v
  }

  /** `PenaliseOnce` applied `n` times. */
  function PenalisedTimes(v: Score, n: nat, penalty: PosReal): Score
    decreases n
  {
    if n == 0 then v else PenalisedTimes(PenaliseOnce(v, penalty), n - 1, penalty)
  }

  /** The inner loop of `enforce_repetition_penalty` for one row: every
      position of the history, in order, rescales the logit of its token,
      reading the value the previous positions left behind. */
  function PenaliseRow(row: seq<Score>, history: seq<int>, penalty: PosReal): (r: seq<Score>)
    requires forall j :: 0 <= j < |history| ==> 0 <= history[j] < |row|
    ensures |r| == |row|
    ensures forall t :: 0 <= t < |row| ==> r[t] == PenalisedTimes(row[t], Count(history, t), penalty)
    decreases |history|
  {
    if |history| == 0 then row
    else
      var tok := history[0];
      var row' := row[tok := PenaliseOnce(row[tok], penalty)];
      assert history == [tok] + history[1..];
      assert forall t :: Count(history, t) == (if t == tok then 1 else 0) + Count(history[1..], t);
      PenaliseRow(row', history[1..], penalty)
  }

  /** Number of occurrences of `x` in `s`. */
  function Count(s: seq<int>, x: int): nat {
    multiset(s)[x]
  }

  /** `enforce_repetition_penalty(logits, batch_size, num_beams, prev, p)`
      with `rows = batch_size * num_beams`: rows `0 .. rows` are penalised
      with their own history, an entry rescaled once per occurrence of its
      token; later rows are untouched. */
  function EnforceRepetitionPenalty(logits: seq<seq<Score>>, rows: nat, prev: seq<seq<int>>, penalty: PosReal)
    : (r: seq<seq<Score>>)
    requires rows <= |logits| && rows <= |prev|
    requires forall i, j :: 0 <= i < rows && 0 <= j < |prev[i]| ==> 0 <= prev[i][j] < |logits[i]|
    ensures |r| == |logits|
    ensures forall i :: 0 <= i < |logits| ==> |r[i]| == |logits[i]|
    ensures forall i :: rows <= i < |logits| ==> r[i] == logits[i]
    ensures forall i, t :: 0 <= i < rows && 0 <= t < |logits[i]| ==>
      r[i][t] == PenalisedTimes(logits[i][t], Count(prev[i], t), penalty)
  {
    seq(|logits|, i requires 0 <= i < |logits| =>
      if i < rows then PenaliseRow(logits[i], prev[i], penalty) else logits[i])
  }

  /** With penalty 1 the rescaling is the identity. */
  lemma {:induction false} UnitPenaltyIsIdentity(v: Score, n: nat)
    ensures PenalisedTimes(v, n, 1.0) == v
    decreases n
  {
    if n > 0 {
      assert PenaliseOnce(v, 1.0) == v;
      UnitPenaltyIsIdentity(v, n - 1);
    }
  }

  /** A penalty of at least one never raises a logit, however often the
      token occurred. */
  lemma {:induction false} PenaltyNeverRaises(v: Score, n: nat, penalty: PosReal)
    requires penalty >= 1.0
    ensures Le(PenalisedTimes(v, n, penalty), v)
    decreases n
  {
    if n > 0 {
      var once := PenaliseOnce(v, penalty);
      if v.Fin? {
        if v.v < 0.0 {
          assert v.v * penalty <= v.v * 1.0;
        } else {
          assert v.v / penalty <= v.v;
        }
      }
      assert Le(once, v);
      PenaltyNeverRaises(once, n - 1, penalty);
    }
  }

  // ---------------------------------------------------------------------
  // Temperature

  /** One logit after `enforce_repetition_penalty`, stated in closed form: a
      penalty above one rescales it once per occurrence of its token in the
      row's history; otherwise it is untouched. */
  function PenalisedLogit(logit: Score, history: seq<int>, t: int, penalty: real): Score {
    if penalty > 1.0 then PenalisedTimes(logit, Count(history, t), penalty) else logit
  }

  /** One logit after the temperature: divided when finite and the
      temperature exceeds one. */
  function Tempered(v: Score, temperature: real): Score {
    if temperature > 1.0 && v.Fin? then Fin(v.v / temperature) else v
  }

  /** `logits / temperature`, applied only for a temperature above one:
      finite logits are divided, infinities stay where they are. */
  function Temper(scores: seq<seq<Score>>, temperature: real): (r: seq<seq<Score>>)
    ensures |r| == |scores| && forall i :: 0 <= i < |scores| ==> |r[i]| == |scores[i]|
    ensures temperature <= 1.0 ==> r == scores
    ensures forall i, t :: 0 <= i < |scores| && 0 <= t < |scores[i]| ==>
      r[i][t] == Tempered(scores[i][t], temperature)
  {
    if temperature > 1.0 then
      var d: PosReal := temperature;
      seq(|scores|, i requires 0 <= i < |scores| =>
        seq(|scores[i]|, t requires 0 <= t < |scores[i]| => DivBy(scores[i][t], d)))
    else scores
  }

  // ---------------------------------------------------------------------
  // Repeated n-gram banning

  /** Reference: the last token of every length-`n` window of `row` whose
      first `n - 1` tokens equal `key`, in window order. */
  function Followers(row: seq<int>, key: seq<int>, n: nat): seq<int>
    requires n >= 1
    decreases |row|
  {
    if |row| < n then []
    else (if row[..n - 1] == key then [row[n - 1]] else []) + Followers(row[1..], key, n)
  }

  /** The slice `row[start..]` of a tensor, which clamps `start` to the row. */
  function Query(row: seq<int>, start: int): seq<int> {
    row[Min(Max(start, 0), |row|)..]
  }

  /** The window that ends on the last token of `s`, if `s` is long enough:
      the token itself when the window's first `n - 1` tokens are `key`. */
  function LastFollower(s: seq<int>, key: seq<int>, n: nat): seq<int>
    requires n >= 1
  {
    if |s| >= n && s[|s| - n..|s| - 1] == key then [s[|s| - 1]] else []
  }

  /** A row exactly one window long has one window to look at. */
  lemma OneWindow(s: seq<int>, key: seq<int>, n: nat)
    requires n >= 1 && |s| == n
    ensures Followers(s, key, n) == LastFollower(s, key, n)
  {
    assert |s[1..]| < n;
    assert s[..n - 1] == s[|s| - n..|s| - 1];
  }

  /** Dropping the first token of a long row keeps its last window. */
  lemma DropKeepsLast(row: seq<int>, x: int, key: seq<int>, n: nat)
    requires 1 <= n <= |row|
    ensures (row + [x])[1..] == row[1..] + [x]
    ensures LastFollower(row[1..] + [x], key, n) == LastFollower(row + [x], key, n)
    ensures Followers(row + [x], key, n) ==
      (if row[..n - 1] == key then [row[n - 1]] else []) + Followers(row[1..] + [x], key, n)
  {
    var s := row + [x];
    assert s[1..] == row[1..] + [x];
    assert s[..n - 1] == row[..n - 1] && s[n - 1] == row[n - 1];
    assert (row[1..] + [x])[|row[1..] + [x]| - n..|row[1..] + [x]| - 1] == s[|s| - n..|s| - 1];
  }

  /** Adding one more token to the row adds at most the window that ends on it. */
  lemma {:induction false} FollowersSnoc(row: seq<int>, x: int, key: seq<int>, n: nat)
    requires n >= 1
    ensures Followers(row + [x], key, n) == Followers(row, key, n) + LastFollower(row + [x], key, n)
    decreases |row|
  {
    if |row| + 1 < n {
    } else if |row| + 1 == n {
      OneWindow(row + [x], key, n);
    } else {
      DropKeepsLast(row, x, key, n);
      FollowersSnoc(row[1..], x, key, n);
    }
  }

  /** Whether table `t` lists, for every key, exactly its followers in `row`. */
  ghost predicate TableOf(t: map<seq<int>, seq<int>>, row: seq<int>, n: nat)
    requires n >= 1
  {
    && (forall key :: key in t <==> Followers(row, key, n) != [])
    && (forall key :: key in t ==> t[key] == Followers(row, key, n))
  }

  /** Appends `x` to the list of `key`, creating it when absent. */
  function Record(t: map<seq<int>, seq<int>>, key: seq<int>, x: int): (r: map<seq<int>, seq<int>>)
    ensures r.Keys == t.Keys + {key}
    ensures r[key] == (if key in t then t[key] else []) + [x]
    ensures forall k :: k in t && k != key ==> r[k] == t[k]
  {
    if key in t then t[key := t[key] + [x]] else t[key := [x]]
  }

  /** A row shorter than a window has no followers at all. */
  lemma EmptyTable(row: seq<int>, n: nat)
    requires 1 <= n && |row| < n
    ensures TableOf(map[], row, n)
  {
  }

  /** The followers of any key after position `k`: those before it, plus
      `row[k]` for the key that precedes it. */
  lemma FollowersAfter(row: seq<int>, k: nat, n: nat, key: seq<int>)
    requires 1 <= n && n - 1 <= k < |row|
    ensures Followers(row[..k + 1], key, n) ==
      Followers(row[..k], key, n) + (if key == row[k + 1 - n..k] then [row[k]] else [])
  {
    var before := row[..k];
    assert row[..k + 1] == before + [row[k]];
    assert (before + [row[k]])[|before| + 1 - n..|before|] == row[k + 1 - n..k];
    FollowersSnoc(before, row[k], key, n);
  }

  /** Recording the window that ends at position `k` keeps the table exact. */
  lemma TableExtends(t: map<seq<int>, seq<int>>, row: seq<int>, k: nat, n: nat)
    requires 1 <= n && n - 1 <= k < |row| && TableOf(t, row[..k], n)
    ensures TableOf(Record(t, row[k + 1 - n..k], row[k]), row[..k + 1], n)
  {
    var key0 := row[k + 1 - n..k];
    var t' := Record(t, key0, row[k]);
    forall key
      ensures (key in t' <==> Followers(row[..k + 1], key, n) != [])
      ensures key in t' ==> t'[key] == Followers(row[..k + 1], key, n)
    {
      FollowersAfter(row, k, n, key);
    }
  }

  /** The hash map `get_banned_tokens` builds for one hypothesis: every
      length-`n` window (the source uses `windows(3)`) maps its first `n - 1`
      tokens to the list of tokens that followed them. */
  method NgramTable(row: seq<int>, n: nat) returns (table: map<seq<int>, seq<int>>)
    requires n >= 1
    ensures TableOf(table, row, n)
  {
    table := map[];
    if |row| < n {
      EmptyTable(row, n);
      return;
    }
    var k := n - 1;
    EmptyTable(row[..k], n);
    while k < |row|
      invariant n - 1 <= k <= |row|
      invariant TableOf(table, row[..k], n)
    {
      TableExtends(table, row, k, n);
      table := Record(table, row[k + 1 - n..k], row[k]);
      k := k + 1;
    }
    assert row[..k] == row;
  }

  /** One hypothesis of `get_banned_tokens`: the table lookup of the query,
      or nothing when the query was never seen. */
  method BannedForHypothesis(row: seq<int>, query: seq<int>, n: nat) returns (banned: seq<int>)
    requires n >= 1
    ensures banned == Followers(row, query, n)
  {
    var table := NgramTable(row, n);
    if query in table {
      banned := table[query];
    } else {
      banned := [];
    }
  }

  /** `get_banned_tokens` as written: a single empty list while
      `cur_len + 1 < n`; otherwise, per row, the followers of the suffix
      starting at `cur_len + 1 - n` among the length-3 windows. */
  function GetBannedTokensAsWritten(ids: seq<seq<int>>, n: nat, curLen: nat): (r: seq<seq<int>>)
    ensures curLen + 1 < n ==> r == [[]]
    ensures curLen + 1 >= n ==> |r| == |ids|
  {
    if curLen + 1 < n then [[]]
    else seq(|ids|, i requires 0 <= i < |ids| => Followers(ids[i], Query(ids[i], curLen + 1 - n), 3))
  }

  /** `get_banned_tokens` with the window length it evidently intends:
      windows of `n` tokens; `n = 0` disables banning. */
  function GetBannedTokens(ids: seq<seq<int>>, n: nat, curLen: nat): (r: seq<seq<int>>)
    ensures curLen + 1 < n ==> r == [[]]
    ensures curLen + 1 >= n ==> |r| == |ids|
  {
    if curLen + 1 < n then [[]]
    else if n == 0 then seq(|ids|, _ => [])
    else seq(|ids|, i requires 0 <= i < |ids| => Followers(ids[i], Query(ids[i], curLen + 1 - n), n))
  }

  /** The banned lists under either reading. */
  function BannedTokens(v: Variant, ids: seq<seq<int>>, n: nat, curLen: nat): (r: seq<seq<int>>)
    ensures curLen + 1 < n ==> r == [[]]
    ensures curLen + 1 >= n ==> |r| == |ids|
  {
    match v
    case AsWritten => GetBannedTokensAsWritten(ids, n, curLen)
    case Corrected => GetBannedTokens(ids, n, curLen)
  }

  /** A key of the wrong length never matches a window. */
  lemma {:induction false} FollowersOfShortKey(row: seq<int>, key: seq<int>, n: nat)
    requires n >= 1 && |key| != n - 1
    ensures Followers(row, key, n) == []
    decreases |row|
  {
    if |row| >= n {
      FollowersOfShortKey(row[1..], key, n);
    }
  }

  /** Window `j` of `row` is `key` followed by `t`. */
  ghost predicate WindowAt(row: seq<int>, j: int, n: nat, key: seq<int>, t: int)
    requires n >= 1
  {
    0 <= j && j + n <= |row| && row[j..j + n - 1] == key && row[j + n - 1] == t
  }

  /** Token `t` follows `key` in `row` exactly when some window of `n`
      tokens is `key` followed by `t`. */
  lemma {:induction false} FollowersMembership(row: seq<int>, key: seq<int>, n: nat, t: int)
    requires n >= 1
    ensures t in Followers(row, key, n) <==> exists j :: WindowAt(row, j, n, key, t)
    decreases |row|
  {
    if |row| >= n {
      FollowersMembership(row[1..], key, n, t);
      if row[..n - 1] == key && row[n - 1] == t {
        assert WindowAt(row, 0, n, key, t);
      }
      if exists j :: WindowAt(row, j, n, key, t) {
        var j :| WindowAt(row, j, n, key, t);
        if j > 0 {
          assert row[1..][j - 1..j - 1 + n - 1] == row[j..j + n - 1];
          assert WindowAt(row[1..], j - 1, n, key, t);
        }
      }
      if exists j :: WindowAt(row[1..], j, n, key, t) {
        var j :| WindowAt(row[1..], j, n, key, t);
        assert row[1..][j..j + n - 1] == row[j + 1..j + 1 + n - 1];
        assert WindowAt(row, j + 1, n, key, t);
      }
    }
  }

  /** With the window length fixed, the as-written banning ignores
      `no_repeat_ngram_size` except through the query: once every row holds
      `cur_len` tokens, any size other than 3 bans nothing. */
  lemma AsWrittenBansNothingUnlessThree(ids: seq<seq<int>>, n: nat, curLen: nat)
    requires n != 3 && curLen + 1 >= n
    requires forall i :: 0 <= i < |ids| ==> |ids[i]| == curLen
    ensures forall i :: 0 <= i < |ids| ==> GetBannedTokensAsWritten(ids, n, curLen)[i] == []
  {
    forall i | 0 <= i < |ids|
      ensures GetBannedTokensAsWritten(ids, n, curLen)[i] == []
    {
      FollowersOfShortKey(ids[i], Query(ids[i], curLen + 1 - n), 3);
    }
  }

  /** The history `[5, 9, 5, 9]` with 2-grams: as written nothing is banned,
      although `9 -> 5` was already seen. */
  lemma AsWrittenMissesBigram()
    ensures GetBannedTokensAsWritten([[5, 9, 5, 9]], 2, 4) == [[]]
  {
    FollowersOfShortKey([5, 9, 5, 9], [9], 3);
  }

  /** The same history with `n`-token windows bans exactly token 5. */
  lemma BigramBansFive()
    ensures GetBannedTokens([[5, 9, 5, 9]], 2, 4) == [[5]]
  {
    var row := [5, 9, 5, 9];
    assert Query(row, 3) == [9];
    assert [5, 9, 5, 9][1..] == [9, 5, 9];
    assert [9, 5, 9][1..] == [5, 9];
    assert [5, 9][1..] == [9];
    assert Followers([9], [9], 2) == [];
    assert Followers([5, 9], [9], 2) == [];
    assert Followers([9, 5, 9], [9], 2) == [5];
    assert Followers(row, [9], 2) == [5];
    var r := GetBannedTokens([row], 2, 4);
    assert |r| == 1 && r[0] == [5];
  }

  /** At the default size 3 both readings agree. */
  lemma AsWrittenAgreesAtThree(ids: seq<seq<int>>, curLen: nat)
    ensures GetBannedTokensAsWritten(ids, 3, curLen) == GetBannedTokens(ids, 3, curLen)
  {
  }

  /** With banning disabled the as-written query is empty (every row holds
      `cur_len` tokens), so both readings ban nothing; at size 3 they agree
      anyway. */
  lemma ReadingsAgreeAtZeroAndThree(ids: seq<seq<int>>, n: nat, curLen: nat)
    requires n == 0 || n == 3
    requires forall i :: 0 <= i < |ids| ==> |ids[i]| == curLen
    ensures BannedTokens(AsWritten, ids, n, curLen) == BannedTokens(Corrected, ids, n, curLen)
  {
    if n == 0 {
      forall i | 0 <= i < |ids|
        ensures GetBannedTokensAsWritten(ids, 0, curLen)[i] == []
      {
        FollowersOfShortKey(ids[i], Query(ids[i], curLen + 1), 3);
      }
    }
  }

  /** The last `n - 1` tokens of a row. */
  function Context(row: seq<int>, n: nat): seq<int>
    requires 1 <= n <= |row| + 1
  {
    row[|row| + 1 - n..]
  }

  /** The intended property: with every row holding `cur_len` tokens, `t` is
      banned for row `i` exactly when the row's last `n - 1` tokens followed
      by `t` already occur in the row. */
  lemma BannedIffNgramSeen(ids: seq<seq<int>>, n: nat, curLen: nat, i: nat, t: int)
    requires 1 <= n <= curLen + 1 && i < |ids| && |ids[i]| == curLen
    ensures t in GetBannedTokens(ids, n, curLen)[i] <==> exists j :: WindowAt(ids[i], j, n, Context(ids[i], n), t)
  {
    var key := Context(ids[i], n);
    assert Query(ids[i], curLen + 1 - n) == key;
    assert GetBannedTokens(ids, n, curLen)[i] == Followers(ids[i], key, n);
    FollowersMembership(ids[i], key, n, t);
  }

  /** With banning disabled nothing is banned. */
  lemma ZeroSizeBansNothing(ids: seq<seq<int>>, curLen: nat)
    ensures forall i :: 0 <= i < |GetBannedTokens(ids, 0, curLen)| ==> GetBannedTokens(ids, 0, curLen)[i] == []
  {
  }

  // ---------------------------------------------------------------------
  // Applying bans and the end-of-sequence mask

  /** Token `t` may not be chosen for row `i` at length `cur_len`: it is on
      the row's banned list under reading `v`, or it ends the sequence before
      `min_length`. */
  ghost predicate Blocked(v: Variant, ids: seq<seq<int>>, curLen: nat, ngram: nat, minLength: nat, eos: Option<seq<int>>,
                          i: nat, t: int) {
    var banned := BannedTokens(v, ids, ngram, curLen);
    || (i < |banned| && t in banned[i])
    || (eos.Some? && curLen < minLength && t in eos.value)
  }

  /** `index_fill_(0, banned, -inf)` on one row. */
  function BanRow(row: seq<Score>, banned: seq<int>): seq<Score> {
    seq(|row|, t requires 0 <= t < |row| => if t in banned then NegInf else row[t])
  }

  /** The loop over `(batch_index, banned)`: row `i` loses the tokens of
      list `i`; rows without a list are untouched. */
  function ApplyBans(scores: seq<seq<Score>>, banned: seq<seq<int>>): (r: seq<seq<Score>>)
    requires |banned| <= |scores|
    ensures |r| == |scores|
    ensures forall i :: 0 <= i < |scores| ==> |r[i]| == |scores[i]|
    ensures forall i, t :: 0 <= i < |scores| && 0 <= t < |scores[i]| ==>
      r[i][t] == (if i < |banned| && t in banned[i] then NegInf else scores[i][t])
  {
    seq(|scores|, i requires 0 <= i < |scores| =>
      if i < |banned| then BanRow(scores[i], banned[i]) else scores[i])
  }

  /** `index_fill_(1, eos_ids, -inf)`: every row loses every end-of-sequence token. */
  function MaskEos(scores: seq<seq<Score>>, eosIds: seq<int>): (r: seq<seq<Score>>)
    ensures |r| == |scores|
    ensures forall i :: 0 <= i < |scores| ==> |r[i]| == |scores[i]|
    ensures forall i, t :: 0 <= i < |scores| && 0 <= t < |scores[i]| ==>
      r[i][t] == (if t in eosIds then NegInf else scores[i][t])
  {
    seq(|scores|, i requires 0 <= i < |scores| => BanRow(scores[i], eosIds))
  }
}

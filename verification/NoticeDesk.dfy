/** The flag logic of handing_rtb_process, on texts in Redis and a queue of commands. */
module NoticeDesk {
  import opened Wrappers
  import opened JsonFields
  import opened RedisStore
  import opened Notices

  datatype Verdict = Accepted | Repeated | NotBid | Undefined

  function FlagKey(bid: string, impid: string): string {
    "dsp_id_flag_" + bid + "_" + impid
  }

  lemma KeyIs(bid: string, impid: string)
    ensures FlagKey(bid, impid) == "dsp_id_flag_" + bid + "_" + impid
  {
  }

  // Ids without an underscore keep the keys of different impressions apart.
  lemma KeysApart(bid: string, impid: string, bid': string, impid': string)
    requires '_' !in impid && '_' !in impid'
    ensures FlagKey(bid, impid) == FlagKey(bid', impid') <==> bid == bid' && impid == impid'
  {
    var (k, k') := (FlagKey(bid, impid), FlagKey(bid', impid'));
    if k == k' {
      LastUnderscore(bid, impid);
      LastUnderscore(bid', impid');
      var (n, n') := (12 + |bid|, 12 + |bid'|);
      assert n == n';
      assert k[12..n] == bid && k'[12..n'] == bid';
      assert k[n + 1..] == impid && k'[n' + 1..] == impid';
    }
  }

  lemma LastUnderscore(bid: string, impid: string)
    requires '_' !in impid
    ensures var (k, n) := (FlagKey(bid, impid), 12 + |bid|);
            && |k| == n + 1 + |impid| && k[n] == '_' && (forall i | n < i < |k| :: k[i] != '_')
            && k[12..n] == bid && k[n + 1..] == impid
  {
    var (k, n) := (FlagKey(bid, impid), 12 + |bid|);
    assert k == "dsp_id_flag_" + bid + "_" + impid;
    assert forall i | n < i < |k| :: k[i] == impid[i - n - 1];
  }

  // With an underscore in an id two impressions may share a key.
  lemma KeysMayMeet()
    ensures FlagKey("a", "b_c") == FlagKey("a_b", "c")
  {
  }

  class Desk {
    const redis: Redis
    var queue: seq<Command>

    constructor (redis: Redis)
      ensures this.redis == redis && queue == []
    {
      this.redis, queue := redis, [];
    }

    // The stored texts are the flags in decimal.
    ghost predicate Shows(s: State)
      reads this, redis
    {
      && queue == s.queue
      && redis.values.Keys == s.flags.Keys
      && forall k | k in s.flags :: redis.values[k] == Decimal(s.flags[k])
    }

    method OnNotice(bid: string, impid: string, mtype: char, ghost s: State) returns (verdict: Verdict)
      requires Shows(s)
      modifies this`queue
      ensures mtype != 'w' && mtype != 'i' && mtype != 'c' ==> verdict == Undefined && Shows(s)
      ensures mtype == 'w' || mtype == 'i' || mtype == 'c' ==>
                var key := "dsp_id_flag_" + bid + "_" + impid;
                var e := Arrive(key, if mtype == 'w' then Win else if mtype == 'i' then Impression else Click);
                && Shows(Step(s, e))
                && verdict == if key !in s.flags then NotBid else if Accepts(s, e) then Accepted else Repeated
    {
      hide Decimal, Atoi, Has, FlagKey;
      var key := FlagKey(bid, impid);
      assert key == "dsp_id_flag_" + bid + "_" + impid by { KeyIs(bid, impid); }
      var text := redis.GetValue(key);
      if key in redis.values {
        DecimalIsDigits(s.flags[key]);
        AtoiOfDecimal(s.flags[key]);
      }
      if mtype != 'w' && mtype != 'i' && mtype != 'c' { return Undefined; }
      if text == "" { return NotBid; }
      var flag := Atoi(text);
      verdict := Repeated;
      if mtype == 'w' {
        if !Has(flag, Win) {
          queue := queue + [IncrBy(key, PRICE)];
          verdict := Accepted;
        }
      } else if mtype == 'i' {
        if !Has(flag, Impression) {
          queue := queue + [SetEx(key, FLAG_LIFE, Or(flag, Impression))];
          verdict := Accepted;
        }
      } else if !Has(flag, Click) && Has(flag, Impression) {
        queue := queue + [SetEx(key, FLAG_LIFE, Or(flag, Click))];
        verdict := Accepted;
      }
    }

    // The writing thread takes one command.
    method WriteNext(ghost s: State)
      requires Shows(s)
      modifies this, redis
      ensures Shows(Step(s, Write)) && redis.hashes == old(redis.hashes)
    {
      hide Decimal, Atoi;
      if queue == [] { return; }
      ghost var next := Execute(s.flags, queue[0]);
      match queue[0] {
        case IncrBy(key, amount) =>
          if key in s.flags { AtoiOfDecimal(s.flags[key]); }
          var n := if key in redis.values then Atoi(redis.values[key]) else 0;
          redis.SetValue(key, Decimal(n + amount));
        case SetEx(key, _, value) =>
          redis.SetValue(key, Decimal(value));
      }
      assert redis.values.Keys == next.Keys && forall k | k in next :: redis.values[k] == Decimal(next[k]);
      queue := queue[1..];
    }
  }
}

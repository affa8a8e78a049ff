/** From a DNS response to the cache: what a bootstrapped ECH config is worth, and for how long. */
module EchBootstrap {
  import opened Bytes
  import opened Wrappers
  import DnsParser
  import DnsMessage
  import opened EchCache

  /** For every well-formed response that carries an ech value: the value put into the cache is
      the one the response gives, every later lookup returns it until its lifetime is over and
      nothing after that, and the lifetime is the record's TTL, 300 s for a TTL of zero, kept
      between 30 s and 3600 s. */
  lemma {:induction false} BootstrapIsServed(r: DnsMessage.Response, log: seq<Op>, key: Key, now: nat, later: nat)
    requires DnsMessage.ValidResponse(r) && DnsMessage.EchAnswer(r.answers).Some?
    requires Monotone(log) && (forall i :: 0 <= i < |log| ==> log[i].now <= now) && now <= later
    ensures var (ech, ttl) := DnsMessage.EchAnswer(r.answers).value;
            var lifetime := ClampTtl(ttl * SECOND);
            && DnsParser.Parse(DnsMessage.Encode(r)) == Ok((ech, ttl))
            && Lookup(Replay(log + [Op.Put(key, ech, ttl * SECOND, now)]), key, later)
                 == (if later < now + lifetime then Some(ech) else None)
            && 30 * SECOND <= lifetime <= 3600 * SECOND
  {
    DnsMessage.ParseInvertsEncode(r);
    hide DnsParser.Parse, DnsMessage.Encode, DnsMessage.EchAnswer, DnsMessage.ValidResponse;
    hide Lookup, Replay, ClampTtl, Monotone;
    var found := DnsMessage.EchAnswer(r.answers).value;
    PutIsServed(log, key, found.0, found.1 * SECOND, now, later);
  }

  lemma {:induction false} PutIsServed(log: seq<Op>, key: Key, config: Config, ttl: nat, now: nat, later: nat)
    requires Monotone(log) && (forall i :: 0 <= i < |log| ==> log[i].now <= now) && now <= later
    ensures Lookup(Replay(log + [Op.Put(key, config, ttl, now)]), key, later)
              == if later < now + ClampTtl(ttl) then Some(config) else None
  {
    var log' := log + [Op.Put(key, config, ttl, now)];
    assert log'[..|log|] == log;
    CacheRefinesLog(log', key, later);
  }

  /** In terms of the record itself, wherever it stands among the answers: its value is reported with
      its own TTL, and served for that many seconds, but never less than 30 nor more than 3600; a TTL
      of zero counts as 300. */
  lemma {:induction false} RecordIsServed(
    r: DnsMessage.Response, before: seq<DnsMessage.Answer>, a: DnsMessage.Answer, rest: seq<DnsMessage.Answer>,
    log: seq<Op>, key: Key, now: nat, later: nat)
    requires DnsMessage.ValidResponse(r) && r.answers == before + ([a] + rest)
    requires DnsMessage.EchAnswer(before).None? && a.rdata.Svcb? && DnsMessage.EchParam(a.rdata.params).Some?
    requires Monotone(log) && (forall i :: 0 <= i < |log| ==> log[i].now <= now) && now <= later
    ensures var ech := DnsMessage.EchParam(a.rdata.params).value;
            var ttl := if a.ttl == 0 then 300 else a.ttl;
            var lifetime := if ttl < 30 then 30 else if ttl > 3600 then 3600 else ttl;
            && DnsParser.Parse(DnsMessage.Encode(r)) == Ok((ech, ttl))
            && Lookup(Replay(log + [Op.Put(key, ech, ttl * SECOND, now)]), key, later)
                 == (if later < now + lifetime * SECOND then Some(ech) else None)
  {
    hide DnsParser.Parse, DnsMessage.Encode, DnsMessage.EchAnswer, DnsMessage.ValidResponse, DnsMessage.EchParam;
    hide Lookup, Replay, Monotone;
    FirstWithEch(before, a, rest);
    BootstrapIsServed(r, log, key, now, later);
  }

  lemma {:induction false} FirstWithEch(before: seq<DnsMessage.Answer>, a: DnsMessage.Answer, rest: seq<DnsMessage.Answer>)
    requires DnsMessage.EchAnswer(before).None? && a.rdata.Svcb? && DnsMessage.EchParam(a.rdata.params).Some?
    ensures DnsMessage.EchAnswer(before + ([a] + rest))
              == Some((DnsMessage.EchParam(a.rdata.params).value, if a.ttl == 0 then 300 else a.ttl))
    decreases |before|
  {
    hide DnsMessage.EchParam;
    var all := before + ([a] + rest);
    if before == [] {
      assert all == [a] + rest && all[0] == a;
    } else {
      assert all[0] == before[0] && all[1..] == before[1..] + ([a] + rest);
      FirstWithEch(before[1..], a, rest);
    }
  }

  /** If the record that yields the value, wherever it stands among the answers, has a TTL of zero,
      its value is kept for five minutes. */
  lemma {:induction false} ZeroTtlLivesFiveMinutes(
    before: seq<DnsMessage.Answer>, a: DnsMessage.Answer, rest: seq<DnsMessage.Answer>)
    requires DnsMessage.EchAnswer(before).None? && a.ttl == 0
    requires a.rdata.Svcb? && DnsMessage.EchParam(a.rdata.params).Some?
    ensures var said := DnsMessage.EchAnswer(before + ([a] + rest));
            said.Some? && ClampTtl(said.value.1 * SECOND) == 300 * SECOND
  {
    hide DnsMessage.EchAnswer, DnsMessage.EchParam;
    FirstWithEch(before, a, rest);
  }
}

/** The quota cache in front of the append-only usage records of one organization. */
module Quota {
  import opened Collections

  /** A usage record: the month it was booked on and its tokens. */
  datatype Usage = Usage(month: string, tokens: nat)

  datatype Status = Status(used: nat, limit: Option<int>, remaining: Option<int>)

  /** `used + estimate > limit` refuses; without a limit nothing is refused. */
  predicate Allows(s: Status, estimate: int)
  {
    s.limit.None? || s.used + estimate <= s.limit.value
  }

  function StatusOf(used: nat, limit: Option<int>): Status
  {
    Status(used, limit, if limit.None? then None else Some(if limit.value - used < 0 then 0 else limit.value - used))
  }

  /** `_sum.totalTokens` of the records of a month. */
  function Sum(records: seq<Usage>, month: string): nat
  {
    if records == [] then 0
    else
      var last := records[|records| - 1];
      Sum(records[..|records| - 1], month) + (if last.month == month then last.tokens else 0)
  }

  lemma SumOneMore(records: seq<Usage>, u: Usage, month: string)
    ensures Sum(records + [u], month) == Sum(records, month) + (if u.month == month then u.tokens else 0)
  {
    assert (records + [u])[..|records|] == records;
  }

  // ---------- the services, one call at a time ----------

  ghost predicate ExactFor(records: seq<Usage>, cache: map<string, Status>, limit: Option<int>)
  {
    forall m :: m in cache ==> cache[m] == StatusOf(Sum(records, m), limit)
  }

  /** After an append an exact cache stays exact if and only if the entry of that month goes, or nothing was added. */
  lemma RecordExactIff(records: seq<Usage>, cache: map<string, Status>, limit: Option<int>, u: Usage,
                       deleted: set<string>)
    requires ExactFor(records, cache, limit)
    ensures ExactFor(records + [u], cache - deleted, limit) <==>
            u.tokens == 0 || u.month !in cache || u.month in deleted
  {
    hide Sum;
    forall m ensures Sum(records + [u], m) == Sum(records, m) + (if u.month == m then u.tokens else 0) {
      SumOneMore(records, u, m);
    }
    if u.month in cache && u.month !in deleted {
      assert u.month in cache - deleted;
      assert cache[u.month].used == Sum(records, u.month);
    }
  }

  class Quotas {
    const limit: Option<int>
    var records: seq<Usage>
    var cache: map<string, Status>

    constructor (limit: Option<int>)
      ensures this.limit == limit && records == [] && cache == map[]
    {
      this.limit, records, cache := limit, [], map[];
    }

    /** What is cached is what the records say. */
    ghost predicate Exact()
      reads this
    {
      ExactFor(records, cache, limit)
    }

    method GetStatus(month: string) returns (s: Status)
      modifies this`cache
      ensures s == if month in old(cache) then old(cache)[month] else StatusOf(Sum(records, month), limit)
      ensures cache == old(cache)[month := s]
      ensures old(Exact()) ==> Exact() && s.used == Sum(records, month) && s.limit == limit
      ensures old(Exact()) ==>
                if limit.None? then s.remaining == None
                else s.remaining == Some(if s.used < limit.value then limit.value - s.used else 0)
    {
      if month in cache {
        assert cache == cache[month := cache[month]];
        return cache[month];
      }
      s := StatusOf(Sum(records, month), limit);
      cache := cache[month := s];
    }

    /** With an exact cache a call is allowed exactly when the month's tokens and the estimate fit the limit. */
    method Enforce(month: string, estimate: int) returns (allowed: bool, s: Status)
      modifies this`cache
      ensures allowed == Allows(s, estimate) && cache == old(cache)[month := s]
      ensures old(Exact()) ==> Exact() && (allowed <==> limit.None? || Sum(records, month) + estimate <= limit.value)
    {
      s := GetStatus(month);
      if s.limit.None? {
        return true, s;
      }
      if s.used + estimate > s.limit.value {
        return false, s;
      }
      return true, s;
    }

    method Invalidate(month: string)
      modifies this`cache
      ensures cache == old(cache) - {month}
    {
      cache := cache - {month};
    }

    /** Appends, then invalidates; a failing write is swallowed and skips the invalidation, and a failing
        delete leaves the cache as it is. The month may turn between the two. */
    method Record(booked: string, tokens: nat, now: string, createFails: bool, deleteFails: bool)
      modifies this
      ensures records == if createFails then old(records) else old(records) + [Usage(booked, tokens)]
      ensures cache == if createFails || deleteFails then old(cache) else old(cache) - {now}
      ensures old(Exact()) ==>
                (Exact() <==> createFails || tokens == 0 || booked !in old(cache) || (!deleteFails && now == booked))
    {
      if createFails {
        return;
      }
      if Exact() {
        RecordExactIff(records, cache, limit, Usage(booked, tokens), if deleteFails then {} else {now});
      }
      assert cache - {} == cache;
      records := records + [Usage(booked, tokens)];
      if !deleteFails {
        Invalidate(now);
      }
    }
  }

  // ---------- the same calls with their steps interleaved ----------

  /** A reader that has summed the records but not yet filled the cache. */
  datatype Reader = Reader(month: string, status: Status)

  datatype System = System(limit: Option<int>, records: seq<Usage>, cache: map<string, Status>,
                           readers: map<nat, Reader>)

  /** `Append` and `Invalidate` are the halves of a recording; `Query` and `Fill` those of a status call that
      missed the cache; `Hit` is one that found an entry; `Expire` is the end of an entry's lifetime. */
  datatype Event =
    | Append(usage: Usage)
    | Invalidate(month: string)
    | Expire(month: string)
    | Hit(month: string)
    | Query(reader: nat, month: string)
    | Fill(reader: nat)

  function Perform(s: System, ev: Event): Option<System>
  {
    match ev
    case Append(usage) => Some(s.(records := s.records + [usage]))
    case Invalidate(month) => Some(s.(cache := s.cache - {month}))
    case Expire(month) => Some(s.(cache := s.cache - {month}))
    case Hit(month) => if month in s.cache then Some(s) else None
    case Query(reader, month) =>
      if reader in s.readers then None
      else Some(s.(readers := s.readers[reader := Reader(month, StatusOf(Sum(s.records, month), s.limit))]))
    case Fill(reader) =>
      if reader !in s.readers then None
      else
        var r := s.readers[reader];
        Some(s.(cache := s.cache[r.month := r.status], readers := s.readers - {reader}))
  }

  /** The month and the status that the event returns to a caller. */
  function Returned(s: System, ev: Event): Option<Reader>
  {
    match ev
    case Hit(month) => if month in s.cache then Some(Reader(month, s.cache[month])) else None
    case Fill(reader) => if reader in s.readers then Some(s.readers[reader]) else None
    case _ => None
  }

  function History(s: System, evs: seq<Event>): Option<System>
    decreases |evs|
  {
    if evs == [] then Some(s)
    else
      var next := Perform(s, evs[0]);
      if next.None? then None else History(next.value, evs[1..])
  }

  function Initial(limit: Option<int>): System
  {
    System(limit, [], map[], map[])
  }

  // ---------- when an entry of the cache is current ----------

  /** The entry of the month, if there is one, is the current sum. */
  ghost predicate Current(s: System, month: string)
  {
    month in s.cache ==> s.cache[month] == StatusOf(Sum(s.records, month), s.limit)
  }

  function Front<T>(evs: seq<T>): seq<T>
    requires evs != []
  {
    evs[..|evs| - 1]
  }

  /** The position of the query that the reader has not yet filled in. */
  function QueryOf(evs: seq<Event>, reader: nat): Option<nat>
  {
    if evs == [] then None
    else
      match evs[|evs| - 1]
      case Query(r, _) => if r == reader then Some(|evs| - 1) else QueryOf(Front(evs), reader)
      case Fill(r) => if r == reader then None else QueryOf(Front(evs), reader)
      case _ => QueryOf(Front(evs), reader)
  }

  /** The position of the query whose sum is in the entry of the month. */
  function WriterOf(evs: seq<Event>, month: string): Option<nat>
  {
    if evs == [] then None
    else
      match evs[|evs| - 1]
      case Invalidate(m) => if m == month then None else WriterOf(Front(evs), month)
      case Expire(m) => if m == month then None else WriterOf(Front(evs), month)
      case Fill(r) =>
        var q := QueryOf(Front(evs), r);
        if q.Some? && q.value < |evs| && evs[q.value] == Query(r, month) then q else WriterOf(Front(evs), month)
      case _ => WriterOf(Front(evs), month)
  }

  /** The usage booked by the appends. */
  function Booked(evs: seq<Event>): seq<Usage>
  {
    if evs == [] then []
    else Booked(Front(evs)) + (if evs[|evs| - 1].Append? then [evs[|evs| - 1].usage] else [])
  }

  /** Tokens for the month are appended after position `q`. */
  ghost predicate BookedAfter(evs: seq<Event>, q: nat, month: string)
  {
    exists i :: q < i < |evs| && evs[i].Append? && evs[i].usage.month == month && evs[i].usage.tokens > 0
  }

  lemma {:induction false} HistoryOneMore(s: System, evs: seq<Event>, ev: Event)
    ensures History(s, evs + [ev]) == (var t := History(s, evs); if t.None? then None else Perform(t.value, ev))
    decreases |evs|
  {
    hide Perform;
    var all := evs + [ev];
    if evs == [] {
      assert all[1..] == [];
      assert forall t: System :: History(t, []) == Some(t);
    } else {
      assert all[1..] == evs[1..] + [ev];
      var next := Perform(s, evs[0]);
      if next.Some? {
        HistoryOneMore(next.value, evs[1..], ev);
      }
    }
  }

  /** Readers and entries hold the sum of the month at the time of their query. */
  ghost predicate Dated(s: System, evs: seq<Event>)
  {
    && s.records == Booked(evs)
    && (forall r :: r in s.readers ==> DatedReader(s.readers[r], s.limit, evs, r))
    && (forall r :: r !in s.readers ==> QueryOf(evs, r) == None)
    && (forall m :: m in s.cache ==> DatedEntry(s.cache[m], s.limit, evs, m))
    && (forall m :: m !in s.cache ==> WriterOf(evs, m) == None)
  }

  ghost predicate DatedReader(reader: Reader, limit: Option<int>, evs: seq<Event>, r: nat)
  {
    var q := QueryOf(evs, r);
    q.Some? && q.value < |evs| && evs[q.value] == Query(r, reader.month)
    && reader.status == StatusOf(Sum(Booked(evs[..q.value]), reader.month), limit)
  }

  ghost predicate DatedEntry(status: Status, limit: Option<int>, evs: seq<Event>, month: string)
  {
    var q := WriterOf(evs, month);
    q.Some? && q.value < |evs| && evs[q.value].Query? && evs[q.value].month == month
    && status == StatusOf(Sum(Booked(evs[..q.value]), month), limit)
  }

  lemma PrefixSame(evs: seq<Event>, ev: Event)
    ensures Front(evs + [ev]) == evs
    ensures forall q: nat :: q <= |evs| ==> (evs + [ev])[..q] == evs[..q]
  {
  }

  lemma EventKeepsDated(s: System, evs: seq<Event>, ev: Event)
    requires Dated(s, evs) && Perform(s, ev).Some?
    ensures Dated(Perform(s, ev).value, evs + [ev])
  {
    hide Sum, Booked, QueryOf, WriterOf;
    var t, all := Perform(s, ev).value, evs + [ev];
    PrefixSame(evs, ev);
    EventQueries(evs, ev);
    assert t.records == Booked(all);
    forall r
      ensures if r in t.readers then DatedReader(t.readers[r], t.limit, all, r) else QueryOf(all, r) == None
    {
      assert r in s.readers ==> DatedReader(s.readers[r], s.limit, evs, r);
    }
    forall m
      ensures if m in t.cache then DatedEntry(t.cache[m], t.limit, all, m) else WriterOf(all, m) == None
    {
      assert m in s.cache ==> DatedEntry(s.cache[m], s.limit, evs, m);
      if ev.Fill? {
        assert DatedReader(s.readers[ev.reader], s.limit, evs, ev.reader);
      }
    }
  }

  lemma EventQueries(evs: seq<Event>, ev: Event)
    ensures Booked(evs + [ev]) == (if ev.Append? then Booked(evs) + [ev.usage] else Booked(evs))
    ensures forall r :: QueryOf(evs + [ev], r) ==
              if ev.Query? && ev.reader == r then Some(|evs|)
              else if ev.Fill? && ev.reader == r then None
              else QueryOf(evs, r)
    ensures forall m :: WriterOf(evs + [ev], m) ==
              if (ev.Invalidate? || ev.Expire?) && ev.month == m then None
              else if ev.Fill? && QueryOf(evs, ev.reader).Some? && QueryOf(evs, ev.reader).value < |evs|
                      && evs[QueryOf(evs, ev.reader).value] == Query(ev.reader, m) then QueryOf(evs, ev.reader)
              else WriterOf(evs, m)
  {
    PrefixSame(evs, ev);
  }

  lemma {:induction false} HistoryIsDated(limit: Option<int>, evs: seq<Event>)
    requires History(Initial(limit), evs).Some?
    ensures Dated(History(Initial(limit), evs).value, evs) && History(Initial(limit), evs).value.limit == limit
    decreases |evs|
  {
    hide Dated, DatedEntry, DatedReader;
    if evs == [] {
      NothingDated(limit);
    } else {
      var before, ev := Front(evs), evs[|evs| - 1];
      assert evs == before + [ev];
      HistoryOneMore(Initial(limit), before, ev);
      HistoryIsDated(limit, before);
      EventKeepsDated(History(Initial(limit), before).value, before, ev);
    }
  }

  lemma NothingDated(limit: Option<int>)
    ensures Dated(Initial(limit), [])
  {
  }

  lemma BookedAfterOneMore(evs: seq<Event>, ev: Event, q: nat, month: string)
    requires q < |evs|
    ensures BookedAfter(evs + [ev], q, month) <==>
              BookedAfter(evs, q, month) || (ev.Append? && ev.usage.month == month && ev.usage.tokens > 0)
  {
    var all := evs + [ev];
    if BookedAfter(all, q, month) {
      var i :| q < i < |all| && all[i].Append? && all[i].usage.month == month && all[i].usage.tokens > 0;
      assert i < |evs| ==> evs[i] == all[i];
    }
    if BookedAfter(evs, q, month) {
      var i :| q < i < |evs| && evs[i].Append? && evs[i].usage.month == month && evs[i].usage.tokens > 0;
      assert all[i] == evs[i];
    }
    assert all[|evs|] == ev;
  }

  /** The sum at an event is never above the current one, and equal to it unless tokens were booked after the event. */
  lemma {:induction false} BookedGrows(evs: seq<Event>, q: nat, month: string)
    requires q < |evs|
    ensures Sum(Booked(evs[..q]), month) <= Sum(Booked(evs), month)
    ensures !evs[q].Append? ==>
              (Sum(Booked(evs[..q]), month) == Sum(Booked(evs), month) <==> !BookedAfter(evs, q, month))
    decreases |evs|
  {
    hide Sum, Booked, BookedAfter;
    var before, ev := Front(evs), evs[|evs| - 1];
    assert evs == before + [ev];
    PrefixSame(before, ev);
    EventQueries(before, ev);
    if ev.Append? {
      SumOneMore(Booked(before), ev.usage, month);
    }
    if q < |before| {
      BookedGrows(before, q, month);
      BookedAfterOneMore(before, ev, q, month);
    } else {
      NothingAfter(evs, q, month);
    }
  }

  lemma NothingAfter(evs: seq<Event>, q: nat, month: string)
    requires q == |evs| - 1
    ensures !BookedAfter(evs, q, month)
  {
  }

  /** For every interleaving: an entry of the cache is the current sum of its month if and only if no tokens were
      booked on the month after the query whose reader filled it in. */
  lemma EntryIsCurrentIff(limit: Option<int>, evs: seq<Event>, month: string)
    requires History(Initial(limit), evs).Some? && month in History(Initial(limit), evs).value.cache
    ensures var s, q := History(Initial(limit), evs).value, WriterOf(evs, month);
            && q.Some? && q.value < |evs| && evs[q.value].Query? && evs[q.value].month == month
            && (Current(s, month) <==> !BookedAfter(evs, q.value, month))
  {
    hide Sum, Booked, QueryOf, WriterOf, History, BookedAfter;
    HistoryIsDated(limit, evs);
    var s := History(Initial(limit), evs).value;
    assert DatedEntry(s.cache[month], s.limit, evs, month);
    BookedGrows(evs, WriterOf(evs, month).value, month);
  }

  /** For every interleaving: a returned status is that of the month at an earlier moment, never above the current
      sum, so what it refuses is refused by the current sum too. */
  lemma RefusalsAreNeverSpurious(limit: Option<int>, evs: seq<Event>, ev: Event, estimate: int) returns (q: nat)
    requires History(Initial(limit), evs).Some? && Returned(History(Initial(limit), evs).value, ev).Some?
    ensures q <= |evs|
    ensures var s := History(Initial(limit), evs).value;
            var r := Returned(s, ev).value;
            && r.status == StatusOf(Sum(Booked(evs[..q]), r.month), limit)
            && r.status.used <= Sum(s.records, r.month)
            && (!Allows(r.status, estimate) ==> limit.Some? && Sum(s.records, r.month) + estimate > limit.value)
  {
    hide Sum, Booked, History, QueryOf, WriterOf;
    var s := History(Initial(limit), evs).value;
    HistoryIsDated(limit, evs);
    var r := Returned(s, ev).value;
    if ev.Hit? {
      assert DatedEntry(s.cache[ev.month], limit, evs, ev.month);
      q := WriterOf(evs, ev.month).value;
    } else {
      assert DatedReader(s.readers[ev.reader], limit, evs, ev.reader);
      q := QueryOf(evs, ev.reader).value;
    }
    BookedGrows(evs, q, r.month);
  }

  // ---------- calls whose steps are not interleaved ----------

  datatype ServiceCall = Recording(usage: Usage) | StatusCall(month: string)

  /** The steps of a call in a state in which no other call is under way. */
  function StepsOf(s: System, c: ServiceCall): seq<Event>
  {
    match c
    case Recording(usage) => [Append(usage), Invalidate(usage.month)]
    case StatusCall(month) => if month in s.cache then [Hit(month)] else [Query(0, month), Fill(0)]
  }

  ghost predicate AtRest(s: System)
  {
    s.readers == map[] && ExactFor(s.records, s.cache, s.limit)
  }

  lemma TwoEvents(s: System, t: System, u: System, a: Event, b: Event)
    requires Perform(s, a) == Some(t) && Perform(t, b) == Some(u)
    ensures History(s, [a, b]) == Some(u)
  {
    hide Perform;
    assert [a, b][1..] == [b] && [b][1..] == [];
    assert History(u, []) == Some(u);
    assert History(t, [b]) == Some(u);
  }

  /** Without interleaving, and with deletes that succeed, the cache always says what the records say. */
  lemma CallsKeepCacheExact(s: System, c: ServiceCall)
    requires AtRest(s)
    ensures var t := History(s, StepsOf(s, c));
            t.Some? && AtRest(t.value) && (c.StatusCall? ==> c.month in t.value.cache)
  {
    match c
    case Recording(usage) =>
      var t := s.(records := s.records + [usage]);
      var u := t.(cache := t.cache - {usage.month});
      RecordExactIff(s.records, s.cache, s.limit, usage, {usage.month});
      TwoEvents(s, t, u, Append(usage), Invalidate(usage.month));
    case StatusCall(month) =>
      if month in s.cache {
        assert [Hit(month)][1..] == [];
        assert History(s, []) == Some(s) && Perform(s, Hit(month)) == Some(s);
      } else {
        var status := StatusOf(Sum(s.records, month), s.limit);
        var t := s.(readers := map[0 := Reader(month, status)]);
        var u := s.(cache := s.cache[month := status]);
        assert s.readers[0 := Reader(month, status)] == t.readers && t.readers - {0} == map[];
        TwoEvents(s, t, u, Query(0, month), Fill(0));
      }
  }

  function CallAll(s: System, calls: seq<ServiceCall>): Option<System>
    decreases |calls|
  {
    if calls == [] then Some(s)
    else
      var next := History(s, StepsOf(s, calls[0]));
      if next.None? then None else CallAll(next.value, calls[1..])
  }

  /** After any calls, one after the other, the next one is allowed exactly when the month's tokens plus the
      estimate are within the limit. */
  lemma {:induction false} AllowedIffWithinLimit(s: System, calls: seq<ServiceCall>, month: string, estimate: int)
    requires AtRest(s)
    ensures var t := CallAll(s, calls + [StatusCall(month)]);
            && t.Some? && month in t.value.cache
            && (Allows(t.value.cache[month], estimate) <==>
                  t.value.limit.None? || Sum(t.value.records, month) + estimate <= t.value.limit.value)
    decreases |calls|
  {
    hide Sum, History, StepsOf;
    var all := calls + [StatusCall(month)];
    if calls == [] {
      assert all == [StatusCall(month)] && all[1..] == [];
      CallsKeepCacheExact(s, StatusCall(month));
      var t := History(s, StepsOf(s, all[0])).value;
      assert CallAll(t, all[1..]) == Some(t);
    } else {
      assert all[1..] == calls[1..] + [StatusCall(month)] && all[0] == calls[0];
      CallsKeepCacheExact(s, calls[0]);
      AllowedIffWithinLimit(History(s, StepsOf(s, calls[0])).value, calls[1..], month, estimate);
    }
  }

  /** The late fill is real: after a recording of any size has finished, its invalidation included, a status call may
      still be answered from the cache as if it had not happened, and allow what the limit forbids. */
  lemma LateFillAllowsTooMuch(month: string, tokens: nat, limit: nat) returns (evs: seq<Event>)
    requires tokens > limit
    ensures History(Initial(Some(limit)), evs).Some?
    ensures var s := History(Initial(Some(limit)), evs).value;
            && s.readers == map[] && Returned(s, Hit(month)).Some?
            && Sum(s.records, month) == tokens
            && Allows(Returned(s, Hit(month)).value.status, limit)
            && Sum(s.records, month) > limit
  {
    hide Sum, Perform, History;
    var u := Usage(month, tokens);
    var stale := StatusOf(0, Some(limit));
    evs := [Query(0, month), Append(u), Invalidate(month), Fill(0)];
    var s0 := Initial(Some(limit));
    var s1 := s0.(readers := map[0 := Reader(month, stale)]);
    var s2 := s1.(records := [u]);
    var s4 := s2.(cache := map[month := stale], readers := map[]);
    SumsHere(month, u);
    FirstTwo(s0, s1, s2, month, u);
    LastTwo(s2, s4, month, stale);
    FourEvents(s0, s1, s2, s2, s4, evs);
  }

  lemma SumsHere(month: string, u: Usage)
    requires u.month == month
    ensures Sum([], month) == 0 && Sum([u], month) == u.tokens
  {
    SumOneMore([], u, month);
    assert [] + [u] == [u];
  }

  lemma FirstTwo(s0: System, s1: System, s2: System, month: string, u: Usage)
    requires s0.records == [] && s0.readers == map[] && Sum([], month) == 0
    requires s1 == s0.(readers := map[0 := Reader(month, StatusOf(0, s0.limit))]) && s2 == s1.(records := [u])
    ensures Perform(s0, Query(0, month)) == Some(s1) && Perform(s1, Append(u)) == Some(s2)
  {
    assert s0.readers[0 := Reader(month, StatusOf(0, s0.limit))] == map[0 := Reader(month, StatusOf(0, s0.limit))];
    assert s1.records + [u] == [u];
  }

  lemma LastTwo(s2: System, s4: System, month: string, stale: Status)
    requires s2.cache == map[] && s2.readers == map[0 := Reader(month, stale)]
    requires s4 == s2.(cache := map[month := stale], readers := map[])
    ensures Perform(s2, Invalidate(month)) == Some(s2) && Perform(s2, Fill(0)) == Some(s4)
  {
    assert s2.cache - {month} == s2.cache;
    assert s2.readers - {0} == map[] && s2.cache[month := stale] == map[month := stale];
  }

  lemma FourEvents(s0: System, s1: System, s2: System, s3: System, s4: System, evs: seq<Event>)
    requires |evs| == 4 && Perform(s0, evs[0]) == Some(s1) && Perform(s1, evs[1]) == Some(s2)
    requires Perform(s2, evs[2]) == Some(s3) && Perform(s3, evs[3]) == Some(s4)
    ensures History(s0, evs) == Some(s4)
  {
    hide Perform;
    assert evs[3..][1..] == [] && History(s4, []) == Some(s4);
    assert History(s3, evs[3..]) == Some(s4);
    assert evs[2..][1..] == evs[3..] && History(s2, evs[2..]) == Some(s4);
    assert evs[1..][1..] == evs[2..] && History(s1, evs[1..]) == Some(s4);
  }
}

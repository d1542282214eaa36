/** The indexer's projection of pool events: rows as the ingestor stores them, the parser, and
    the two folds that rebuild a pool's state and its LP positions. */
module Indexer {
  import opened Outcomes
  import opened Totals
  import Cpmm
  import Decimal

  /** A decoded JSON value: 128-bit integers and addresses arrive as text, 32-bit ones as numbers. */
  datatype Val = Text(text: string) | Num(n: int) | Null

  datatype Row = Row(eventType: string, topics: seq<Val>, data: seq<Val>)

  datatype Kind = Swap | AddLiquidity | RemoveLiquidity

  datatype PoolEvent = PoolEvent(
    kind: Kind, account: Option<Address>,
    amountA: Option<string>, amountB: Option<string>, shares: Option<string>,
    tokenIn: Option<Address>, tokenOut: Option<Address>, tokenA: Option<Address>, tokenB: Option<Address>,
    reserveA: Option<string>, reserveB: Option<string>, totalShares: Option<string>,
    feeBps: Option<int>, amplification: Option<string>)

  // ---------------------------------------------------------------- parsing

  predicate Base32(c: char) { 'A' <= c <= 'Z' || '2' <= c <= '7' }

  predicate StrKey(s: string, prefix: char)
  {
    |s| == 56 && s[0] == prefix && forall i :: 1 <= i < |s| ==> Base32(s[i])
  }

  predicate IsAccount(s: string) { StrKey(s, 'G') }

  predicate IsContract(s: string) { StrKey(s, 'C') }

  function At(data: seq<Val>, i: nat): Val { if i < |data| then data[i] else Null }

  function RawAmount(v: Val): Option<string>
  {
    match v
    case Num(n) => Some(Decimal.Text(n))
    case Text(t) => if Decimal.IsDecimal(t) then Some(t) else None
    case Null => None
  }

  /** Numbers, and text that reads as one; only whole numbers occur in these events. */
  function Numeric(v: Val): Option<int>
  {
    match v
    case Num(n) => Some(n)
    case Text(t) => if Decimal.IsDecimal(t) then Some(Decimal.Parse(t)) else None
    case Null => None
  }

  function AddressOf(v: Val): Option<Address>
  {
    if v.Text? && (IsAccount(v.text) || IsContract(v.text)) then Some(v.text) else None
  }

  /** The first topic that is an account address. */
  function AccountOf(topics: seq<Val>): Option<Address>
  {
    if topics == [] then None
    else if topics[0].Text? && IsAccount(topics[0].text) then Some(topics[0].text)
    else AccountOf(topics[1..])
  }

  function Classify(eventType: string): Option<Kind>
  {
    if eventType == "swap" || eventType == "ss_swap" then Some(Swap)
    else if eventType == "add_liq" || eventType == "ss_add" then Some(AddLiquidity)
    else if eventType == "rm_liq" || eventType == "ss_rm" then Some(RemoveLiquidity)
    else None
  }

  function ParseEvent(row: Row): Option<PoolEvent>
  {
    match Classify(row.eventType)
    case None => None
    case Some(kind) =>
      var d, swap := row.data, kind == Swap;
      Some(PoolEvent(
        kind, AccountOf(row.topics), RawAmount(At(d, 0)), RawAmount(At(d, 1)),
        if swap then None else RawAmount(At(d, 2)),
        if swap then AddressOf(At(d, 2)) else None,
        if swap then AddressOf(At(d, 3)) else None,
        if swap then AddressOf(At(d, 8)) else AddressOf(At(d, 3)),
        if swap then AddressOf(At(d, 9)) else AddressOf(At(d, 4)),
        RawAmount(At(d, if swap then 4 else 5)), RawAmount(At(d, if swap then 5 else 6)), RawAmount(At(d, 7)),
        if swap then Numeric(At(d, 6)) else None,
        if swap then RawAmount(At(d, 10)) else RawAmount(At(d, 8))))
  }

  function ParseAll(rows: seq<Row>): seq<PoolEvent>
  {
    if rows == [] then []
    else
      match ParseEvent(rows[0])
      case None => ParseAll(rows[1..])
      case Some(e) => [e] + ParseAll(rows[1..])
  }

  // ---------------------------------------------------------------- latestPoolState

  datatype Latest = Latest(reserveA: string, reserveB: string, totalShares: string,
                           tokenA: Option<Address>, tokenB: Option<Address>,
                           feeBps: Option<int>, amplification: Option<string>)

  predicate HasState(e: PoolEvent) { e.reserveA.Some? && e.reserveB.Some? && e.totalShares.Some? }

  function FirstState(events: seq<PoolEvent>): (r: Option<PoolEvent>)
    ensures r.Some? ==> HasState(r.value)
  {
    if events == [] then None else if HasState(events[0]) then Some(events[0]) else FirstState(events[1..])
  }

  function FirstFee(events: seq<PoolEvent>): Option<int>
  {
    if events == [] then None else if events[0].feeBps.Some? then events[0].feeBps else FirstFee(events[1..])
  }

  function FirstAmplification(events: seq<PoolEvent>): Option<string>
  {
    if events == [] then None
    else if events[0].amplification.Some? then events[0].amplification else FirstAmplification(events[1..])
  }

  function Coalesce(a: Option<Address>, b: Option<Address>): Option<Address> { if a.Some? then a else b }

  /** The newest event that carries a state gives the reserves and shares; fee and
      amplification come from the newest event that carries them. */
  function LatestOf(events: seq<PoolEvent>): Option<Latest>
  {
    match FirstState(events)
    case None => None
    case Some(e) =>
      Some(Latest(e.reserveA.value, e.reserveB.value, e.totalShares.value, Coalesce(e.tokenA, e.tokenIn),
                  Coalesce(e.tokenB, e.tokenOut), FirstFee(events), FirstAmplification(events)))
  }

  /** The code's loop. */
  method LatestPoolState(events: seq<PoolEvent>) returns (r: Option<Latest>)
    ensures r == LatestOf(events)
  {
    var latest: Option<PoolEvent> := None;
    var fee: Option<int> := None;
    var amplification: Option<string> := None;
    for i := 0 to |events|
      invariant FirstState(events) == if latest.Some? then latest else FirstState(events[i..])
      invariant FirstFee(events) == if fee.Some? then fee else FirstFee(events[i..])
      invariant FirstAmplification(events)
                == if amplification.Some? then amplification else FirstAmplification(events[i..])
      invariant latest.Some? ==> HasState(latest.value)
    {
      var e := events[i];
      assert events[i..][0] == e && events[i..][1..] == events[i + 1..];
      if latest == None && HasState(e) { latest := Some(e); }
      if fee == None && e.feeBps.Some? { fee := e.feeBps; }
      if amplification == None && e.amplification.Some? { amplification := e.amplification; }
    }
    assert events[|events|..] == [];
    if latest == None { return None; }
    var e := latest.value;
    return Some(Latest(e.reserveA.value, e.reserveB.value, e.totalShares.value, Coalesce(e.tokenA, e.tokenIn),
                       Coalesce(e.tokenB, e.tokenOut), fee, amplification));
  }

  // ---------------------------------------------------------------- lpPositions

  /** Events that lpPositions counts. */
  predicate Counts(e: PoolEvent) { e.account.Some? && e.shares.Some? }

  /** Amounts are text of integers; the parser only lets such text through. */
  ghost predicate AmountsOk(e: PoolEvent)
  {
    && (e.shares.Some? ==> Decimal.IsDecimal(e.shares.value))
    && (e.totalShares.Some? ==> Decimal.IsDecimal(e.totalShares.value))
  }

  ghost predicate AllOk(events: seq<PoolEvent>) { forall i :: 0 <= i < |events| ==> AmountsOk(events[i]) }

  /** Signed change of the account's shares. */
  function Delta(e: PoolEvent): int
    requires Counts(e) && AmountsOk(e)
  {
    if e.kind == RemoveLiquidity then -Decimal.Parse(e.shares.value) else Decimal.Parse(e.shares.value)
  }

  /** Net shares of account a over the events. */
  function Net(events: seq<PoolEvent>, a: Address): int
    requires AllOk(events)
  {
    if events == [] then 0
    else (if Counts(events[0]) && events[0].account == Some(a) then Delta(events[0]) else 0) + Net(events[1..], a)
  }

  function FirstTotal(events: seq<PoolEvent>): Option<int>
    requires AllOk(events)
  {
    if events == [] then None
    else if Counts(events[0]) && events[0].totalShares.Some? then Some(Decimal.Parse(events[0].totalShares.value))
    else FirstTotal(events[1..])
  }

  datatype Position = Position(account: Address, shares: int)

  datatype Positions = Positions(available: bool, total: Option<string>, positions: seq<Position>)

  ghost predicate Descending(list: seq<Position>)
  {
    forall i, j :: 0 <= i < j < |list| ==> list[i].shares >= list[j].shares
  }

  ghost predicate Listed(list: seq<Position>, a: Address) { exists i :: 0 <= i < |list| && list[i].account == a }

  /** The list names exactly the accounts of `holders`, once each, with their net shares,
      largest first. */
  ghost predicate Ranks(list: seq<Position>, events: seq<PoolEvent>, holders: set<Address>)
    requires AllOk(events)
  {
    && Descending(list)
    && (forall i, j :: 0 <= i < j < |list| ==> list[i].account != list[j].account)
    && (forall i :: 0 <= i < |list| ==> list[i].account in holders && list[i].shares == Net(events, list[i].account))
    && (forall a :: a in holders ==> Listed(list, a))
  }

  /** Sorting step: the new position goes behind all that are at least as large. */
  method Insert(list: seq<Position>, p: Position) returns (r: seq<Position>, at: nat)
    requires Descending(list)
    ensures at <= |list| && r == list[..at] + [p] + list[at..] && Descending(r)
  {
    at := 0;
    while at < |list| && list[at].shares >= p.shares
      invariant at <= |list|
      invariant forall i :: 0 <= i < at ==> list[i].shares >= p.shares
    {
      at := at + 1;
    }
    r := list[..at] + [p] + list[at..];
  }

  /** Where the entries of a list are after an insertion. */
  lemma InsertListed(list: seq<Position>, p: Position, at: nat, a: Address)
    requires at <= |list| && (a == p.account || Listed(list, a))
    ensures Listed(list[..at] + [p] + list[at..], a)
  {
    var r := list[..at] + [p] + list[at..];
    if a == p.account {
      assert r[at].account == a;
    } else {
      var i :| 0 <= i < |list| && list[i].account == a;
      assert r[if i < at then i else i + 1] == list[i];
    }
  }

  lemma InsertDistinct(list: seq<Position>, p: Position, at: nat)
    requires at <= |list| && forall i :: 0 <= i < |list| ==> list[i].account != p.account
    requires forall i, j :: 0 <= i < j < |list| ==> list[i].account != list[j].account
    ensures var r := list[..at] + [p] + list[at..];
            forall i, j :: 0 <= i < j < |r| ==> r[i].account != r[j].account
  {
    var r := list[..at] + [p] + list[at..];
    forall i, j | 0 <= i < j < |r| ensures r[i].account != r[j].account {
      assert i != at ==> r[i] == list[if i < at then i else i - 1];
      assert j != at ==> r[j] == list[if j < at then j else j - 1];
    }
  }

  lemma InsertRanks(list: seq<Position>, p: Position, at: nat, events: seq<PoolEvent>, holders: set<Address>)
    requires AllOk(events) && Ranks(list, events, holders) && at <= |list| && p.account !in holders
    requires p.shares == Net(events, p.account) && Descending(list[..at] + [p] + list[at..])
    ensures Ranks(list[..at] + [p] + list[at..], events, holders + {p.account})
  {
    var r := list[..at] + [p] + list[at..];
    InsertDistinct(list, p, at);
    forall i | 0 <= i < |r| ensures r[i].account in holders + {p.account} && r[i].shares == Net(events, r[i].account) {
      if i != at { assert r[i] == list[if i < at then i else i - 1]; }
    }
    forall a | a in holders + {p.account} ensures Listed(r, a) {
      InsertListed(list, p, at, a);
    }
  }

  /** The code's loop over the events: net shares per account, the accounts in the order of
      their first event, and the newest total. */
  method NetShares(events: seq<PoolEvent>) returns (order: seq<Address>, shares: Balances, total: Option<int>)
    requires AllOk(events)
    ensures forall a :: Get(shares, a) == Net(events, a)
    ensures forall a :: a in shares <==> a in order
    ensures forall i, j :: 0 <= i < j < |order| ==> order[i] != order[j]
    ensures total == FirstTotal(events)
  {
    order, shares, total := [], map[], None;
    for i := 0 to |events|
      invariant forall a :: Get(shares, a) + Net(events[i..], a) == Net(events, a)
      invariant forall a :: a in shares <==> a in order
      invariant forall j, k :: 0 <= j < k < |order| ==> order[j] != order[k]
      invariant FirstTotal(events) == if total.Some? then total else FirstTotal(events[i..])
    {
      var e := events[i];
      assert AmountsOk(e) && events[i..][0] == e && events[i..][1..] == events[i + 1..];
      if e.account.Some? && e.shares.Some? {
        var a := e.account.value;
        var amount := Decimal.Parse(e.shares.value);
        if a !in shares { order := order + [a]; }
        shares := shares[a := if e.kind == RemoveLiquidity then Get(shares, a) - amount else Get(shares, a) + amount];
        if total == None && e.totalShares.Some? { total := Some(Decimal.Parse(e.totalShares.value)); }
      }
    }
    assert events[|events|..] == [];
  }

  /** lpPositions: exactly the accounts with positive net shares, ranked, cut off at `limit`. */
  method LpPositions(events: seq<PoolEvent>, limit: nat) returns (r: Positions, ghost holders: set<Address>, ghost all: seq<Position>)
    requires AllOk(events)
    ensures forall a :: a in holders <==> Net(events, a) > 0
    ensures Ranks(all, events, holders)
    ensures r.positions == if |all| <= limit then all else all[..limit]
    ensures r.available <==> holders != {}
    ensures r.total == if FirstTotal(events).Some? then Some(Decimal.Text(FirstTotal(events).value)) else None
  {
    var order, shares, total := NetShares(events);
    var list: seq<Position> := [];
    holders := {};
    for i := 0 to |order|
      invariant holders == set a | a in order[..i] && Net(events, a) > 0
      invariant Ranks(list, events, holders)
    {
      var a := order[i];
      assert order[..i + 1] == order[..i] + [a] && a !in order[..i];
      if Get(shares, a) > 0 {
        var sorted, at := Insert(list, Position(a, Get(shares, a)));
        InsertRanks(list, Position(a, Get(shares, a)), at, events, holders);
        list := sorted;
        holders := holders + {a};
      }
    }
    assert order[..|order|] == order;
    forall a ensures a in holders <==> Net(events, a) > 0 { assert Get(shares, a) == Net(events, a); }
    all := list;
    if holders != {} {
      var a :| a in holders;
      assert Listed(list, a);
    }
    if list != [] { assert list[0].account in holders; }
    r := Positions(list != [], if total.Some? then Some(Decimal.Text(total.value)) else None,
                   if |list| <= limit then list else list[..limit]);
  }

  // ---------------------------------------------------------------- what the pool contract emits

  /** The row the ingestor stores for a pool event. */
  function RowOf(e: Cpmm.Event): Row
  {
    match e
    case AddLiq(w, a, b, s, ta, tb, ra, rb, ts) =>
      Row("add_liq", [Text("add_liq"), Text(w)],
          [Int(a), Int(b), Int(s), Text(ta), Text(tb), Int(ra), Int(rb), Int(ts)])
    case RmLiq(w, a, b, s, ta, tb, ra, rb, ts) =>
      Row("rm_liq", [Text("rm_liq"), Text(w)],
          [Int(a), Int(b), Int(s), Text(ta), Text(tb), Int(ra), Int(rb), Int(ts)])
    case Swapped(w, x, y, ti, to, ra, rb, f, ts, ta, tb) =>
      Row("swap", [Text("swap"), Text(w)],
          [Int(x), Int(y), Text(ti), Text(to), Int(ra), Int(rb), Num(f), Int(ts), Text(ta), Text(tb)])
  }

  function Int(n: int): Val { Text(Decimal.Text(n)) }

  /** All rows of a pool's log, newest first. */
  function Feed(log: seq<Cpmm.Event>): seq<Row>
  {
    if log == [] then [] else [RowOf(log[|log| - 1])] + Feed(log[..|log| - 1])
  }

  /** The rows a query with this LIMIT returns. */
  function Page(log: seq<Cpmm.Event>, limit: nat): seq<Row>
  {
    if |Feed(log)| <= limit then Feed(log) else Feed(log)[..limit]
  }

  function AccountIf(w: Address): Option<Address> { if IsAccount(w) then Some(w) else None }

  function AddressIf(w: Address): Option<Address> { if IsAccount(w) || IsContract(w) then Some(w) else None }

  /** What the parser should make of an event of the pool. */
  function Expected(e: Cpmm.Event): PoolEvent
  {
    match e
    case AddLiq(w, a, b, s, ta, tb, ra, rb, ts) =>
      PoolEvent(AddLiquidity, AccountIf(w), Some(Decimal.Text(a)), Some(Decimal.Text(b)), Some(Decimal.Text(s)),
                None, None, AddressIf(ta), AddressIf(tb),
                Some(Decimal.Text(ra)), Some(Decimal.Text(rb)), Some(Decimal.Text(ts)), None, None)
    case RmLiq(w, a, b, s, ta, tb, ra, rb, ts) =>
      PoolEvent(RemoveLiquidity, AccountIf(w), Some(Decimal.Text(a)), Some(Decimal.Text(b)), Some(Decimal.Text(s)),
                None, None, AddressIf(ta), AddressIf(tb),
                Some(Decimal.Text(ra)), Some(Decimal.Text(rb)), Some(Decimal.Text(ts)), None, None)
    case Swapped(w, x, y, ti, to, ra, rb, f, ts, ta, tb) =>
      PoolEvent(Swap, AccountIf(w), Some(Decimal.Text(x)), Some(Decimal.Text(y)), None,
                AddressIf(ti), AddressIf(to), AddressIf(ta), AddressIf(tb),
                Some(Decimal.Text(ra)), Some(Decimal.Text(rb)), Some(Decimal.Text(ts)), Some(f), None)
  }

  lemma ParsedAdd(e: Cpmm.Event)
    requires e.AddLiq?
    ensures ParseEvent(RowOf(e)) == Some(Expected(e))
  {
    forall n ensures RawAmount(Int(n)) == Some(Decimal.Text(n)) { Decimal.RoundTrip(n); }
    TopicAccount("add_liq", e.who);
  }

  lemma ParsedRemove(e: Cpmm.Event)
    requires e.RmLiq?
    ensures ParseEvent(RowOf(e)) == Some(Expected(e))
  {
    forall n ensures RawAmount(Int(n)) == Some(Decimal.Text(n)) { Decimal.RoundTrip(n); }
    TopicAccount("rm_liq", e.who);
  }

  lemma ParsedSwap(e: Cpmm.Event)
    requires e.Swapped?
    ensures ParseEvent(RowOf(e)) == Some(Expected(e))
  {
    forall n ensures RawAmount(Int(n)) == Some(Decimal.Text(n)) { Decimal.RoundTrip(n); }
    TopicAccount("swap", e.who);
  }

  /** The parser reads back every field the contract put into the event. */
  lemma ParsedRow(e: Cpmm.Event)
    ensures ParseEvent(RowOf(e)) == Some(Expected(e))
  {
    if e.AddLiq? { ParsedAdd(e); } else if e.RmLiq? { ParsedRemove(e); } else { ParsedSwap(e); }
  }

  /** The event's name is not an account address, so the second topic decides. */
  lemma TopicAccount(name: string, w: Address)
    requires |name| < 56
    ensures AccountOf([Text(name), Text(w)]) == AccountIf(w)
  {
    assert [Text(name), Text(w)][1..] == [Text(w)] && [Text(w)][1..] == [];
    assert AccountOf([Text(w)]) == AccountIf(w);
  }

  /** Every row of the log parses, in order. */
  lemma {:induction false} ParseFeed(log: seq<Cpmm.Event>)
    ensures log != [] ==> ParseAll(Feed(log)) == [Expected(log[|log| - 1])] + ParseAll(Feed(log[..|log| - 1]))
    ensures AllOk(ParseAll(Feed(log)))
    ensures |Feed(log)| == |log|
  {
    if log != [] {
      var last, init := log[|log| - 1], log[..|log| - 1];
      ParsedRow(last);
      ParseFeed(init);
      assert Feed(log)[1..] == Feed(init);
      assert AmountsOk(Expected(last)) by {
        if !last.Swapped? { Decimal.RoundTrip(last.shares); }
        Decimal.RoundTrip(last.totalShares);
      }
    }
  }

  // ---------------------------------------------------------------- agreement with the contract

  /** LP balance of a as the log tells it. */
  function LogNet(log: seq<Cpmm.Event>, a: Address): int
  {
    if log == [] then 0
    else
      LogNet(log[..|log| - 1], a) +
      match log[|log| - 1]
      case AddLiq(w, _, _, s, _, _, _, _, _) => (if w == a then s else 0)
      case RmLiq(w, _, _, s, _, _, _, _, _) => (if w == a then -s else 0)
      case Swapped(_, _, _, _, _, _, _, _, _, _, _) => 0
  }

  /** The contract's log agrees with its storage. */
  ghost predicate LogOk(s: Cpmm.State)
  {
    && (forall a :: LogNet(s.events, a) == Get(s.lp, a))
    && (if s.events == [] then s.reserveA == 0 && s.reserveB == 0 && s.totalShares == 0
        else
          var e := s.events[|s.events| - 1];
          e.reserveA == s.reserveA && e.reserveB == s.reserveB && e.totalShares == s.totalShares
          && e.tokenA == s.tokenA && e.tokenB == s.tokenB)
    && (forall i :: 0 <= i < |s.events| && s.events[i].Swapped? ==> s.events[i].feeBps == s.feeBps)
  }

  lemma StepLog(s: Cpmm.State, c: Cpmm.Call)
    requires LogOk(s)
    ensures LogOk(Cpmm.Step(s, c))
  {
    var t := Cpmm.Step(s, c);
    if t.events != s.events {
      assert t.events[..|t.events| - 1] == s.events;
    }
  }

  lemma {:induction false} RunLog(s: Cpmm.State, calls: seq<Cpmm.Call>)
    requires LogOk(s)
    ensures LogOk(Cpmm.Run(s, calls))
    decreases |calls|
  {
    if calls != [] {
      StepLog(s, calls[0]);
      RunLog(Cpmm.Step(s, calls[0]), calls[1..]);
    }
  }

  /** The projection nets, for every account address, exactly what the log says, and nothing
      for any other address. */
  lemma {:induction false} NetOfFeed(log: seq<Cpmm.Event>, a: Address)
    ensures AllOk(ParseAll(Feed(log)))
    ensures Net(ParseAll(Feed(log)), a) == if IsAccount(a) then LogNet(log, a) else 0
  {
    hide ParseEvent;
    ParseFeed(log);
    if log != [] {
      var last := log[|log| - 1];
      NetOfFeed(log[..|log| - 1], a);
      if !last.Swapped? { Decimal.RoundTrip(last.shares); }
      assert ParseAll(Feed(log))[1..] == ParseAll(Feed(log[..|log| - 1]));
    }
  }

  /** The newest liquidity event of the log. */
  function LastLiquidity(log: seq<Cpmm.Event>): Option<Cpmm.Event>
  {
    if log == [] then None
    else if log[|log| - 1].Swapped? then LastLiquidity(log[..|log| - 1]) else Some(log[|log| - 1])
  }

  lemma {:induction false} TotalOfFeed(log: seq<Cpmm.Event>)
    requires LastLiquidity(log).Some? ==> IsAccount(LastLiquidity(log).value.who)
    ensures AllOk(ParseAll(Feed(log)))
    ensures FirstTotal(ParseAll(Feed(log)))
            == if LastLiquidity(log).Some? then Some(LastLiquidity(log).value.totalShares) else None
  {
    hide ParseEvent;
    ParseFeed(log);
    if log != [] {
      var last := log[|log| - 1];
      if last.Swapped? { TotalOfFeed(log[..|log| - 1]); }
      Decimal.RoundTrip(last.totalShares);
      assert ParseAll(Feed(log))[1..] == ParseAll(Feed(log[..|log| - 1]));
    }
  }

  /** Swaps repeat the share total, so the newest liquidity event carries the current one. */
  ghost predicate TotalsRepeat(s: Cpmm.State)
  {
    if LastLiquidity(s.events).Some? then LastLiquidity(s.events).value.totalShares == s.totalShares
    else s.totalShares == 0
  }

  lemma {:induction false} RunTotals(s: Cpmm.State, calls: seq<Cpmm.Call>)
    requires TotalsRepeat(s)
    ensures TotalsRepeat(Cpmm.Run(s, calls))
    decreases |calls|
  {
    if calls != [] {
      var m := Cpmm.Step(s, calls[0]);
      if m.events != s.events { assert m.events[..|m.events| - 1] == s.events; }
      RunTotals(m, calls[1..]);
    }
  }

  /** For every run of a pool with at most `limit` events, the folded shares are exactly the
      contract's LP balances of account addresses; if the newest liquidity event is an
      account's, the folded total is exactly the contract's. */
  lemma PositionsAreExact(tokenA: Address, tokenB: Address, feeBps: int, calls: seq<Cpmm.Call>, limit: nat, a: Address)
    requires var t := Cpmm.Run(Cpmm.Fresh(tokenA, tokenB, feeBps), calls);
             |t.events| <= limit
    ensures var t := Cpmm.Run(Cpmm.Fresh(tokenA, tokenB, feeBps), calls);
            var events := ParseAll(Page(t.events, limit));
            && AllOk(events)
            && Net(events, a) == (if IsAccount(a) then Get(t.lp, a) else 0)
            && (LastLiquidity(t.events).Some? && IsAccount(LastLiquidity(t.events).value.who) ==>
                  FirstTotal(events) == Some(t.totalShares))
            && (LastLiquidity(t.events).None? ==> FirstTotal(events) == None && t.totalShares == 0)
  {
    var s := Cpmm.Fresh(tokenA, tokenB, feeBps);
    var t := Cpmm.Run(s, calls);
    RunLog(s, calls);
    RunTotals(s, calls);
    NetOfFeed(t.events, a);
    ParseFeed(t.events);
    if LastLiquidity(t.events).Some? ==> IsAccount(LastLiquidity(t.events).value.who) {
      TotalOfFeed(t.events);
    }
  }

  /** The shown list is the top of the pool's own book of account addresses: distinct accounts
      with exactly their positive balances, largest first; an account that is not shown holds
      nothing, or the list is full of accounts with at least as much. */
  ghost predicate TopHolders(shown: seq<Position>, pool: Cpmm.State, cut: nat)
  {
    && |shown| <= cut && Descending(shown)
    && (forall i, j :: 0 <= i < j < |shown| ==> shown[i].account != shown[j].account)
    && (forall i :: 0 <= i < |shown| ==> IsAccount(shown[i].account) && shown[i].shares == Get(pool.lp, shown[i].account) > 0)
    && (forall a :: IsAccount(a) && Get(pool.lp, a) > 0 ==>
          Listed(shown, a) || (|shown| == cut && AllAtLeast(shown, Get(pool.lp, a))))
  }

  ghost predicate AllAtLeast(list: seq<Position>, x: int) { forall i :: 0 <= i < |list| ==> list[i].shares >= x }

  lemma CutRanked(all: seq<Position>, events: seq<PoolEvent>, holders: set<Address>, pool: Cpmm.State, cut: nat)
    requires AllOk(events) && Ranks(all, events, holders)
    requires forall a :: a in holders <==> Net(events, a) > 0
    requires forall a :: Net(events, a) == if IsAccount(a) then Get(pool.lp, a) else 0
    ensures TopHolders(if |all| <= cut then all else all[..cut], pool, cut)
  {
    var shown := if |all| <= cut then all else all[..cut];
    forall a | IsAccount(a) && Get(pool.lp, a) > 0
      ensures Listed(shown, a) || (|shown| == cut && AllAtLeast(shown, Get(pool.lp, a)))
    {
      assert Net(events, a) > 0 && a in holders && Listed(all, a);
      var i :| 0 <= i < |all| && all[i].account == a;
      if i < |shown| { assert shown[i].account == a; }
    }
    forall i | 0 <= i < |shown| ensures IsAccount(shown[i].account) && shown[i].shares == Get(pool.lp, shown[i].account) > 0 {
      assert shown[i] == all[i] && Net(events, all[i].account) > 0;
    }
  }

  /** Parser and fold together: for a pool that any run of at most `limit` events has led to,
      the answer lists exactly the top of the contract's own LP book. */
  method PositionsOfPool(pool: Cpmm.State, limit: nat, cut: nat, ghost tokenA: Address, ghost tokenB: Address,
                         ghost feeBps: int, ghost calls: seq<Cpmm.Call>)
    returns (r: Positions)
    requires pool == Cpmm.Run(Cpmm.Fresh(tokenA, tokenB, feeBps), calls) && |pool.events| <= limit
    ensures TopHolders(r.positions, pool, cut)
    ensures r.available <==> exists a :: IsAccount(a) && Get(pool.lp, a) > 0
  {
    var events := ParseAll(Page(pool.events, limit));
    forall a ensures AllOk(events) && Net(events, a) == (if IsAccount(a) then Get(pool.lp, a) else 0) {
      PositionsAreExact(tokenA, tokenB, feeBps, calls, limit, a);
    }
    PositionsAreExact(tokenA, tokenB, feeBps, calls, limit, "");
    ghost var holders, all;
    r, holders, all := LpPositions(events, cut);
    CutRanked(all, events, holders, pool, cut);
    if r.available {
      ghost var a :| a in holders;
      assert Net(events, a) > 0;
    } else {
      forall a ensures !(IsAccount(a) && Get(pool.lp, a) > 0) { assert a !in holders; }
    }
  }

  /** For every run, any page that is not empty rebuilds exactly the contract's current
      reserves, shares and tokens; the fee is the contract's or unknown. */
  lemma LatestIsExact(tokenA: Address, tokenB: Address, feeBps: int, calls: seq<Cpmm.Call>, limit: nat)
    requires limit >= 1 && IsContract(tokenA) && IsContract(tokenB)
    ensures var t := Cpmm.Run(Cpmm.Fresh(tokenA, tokenB, feeBps), calls);
            var r := LatestOf(ParseAll(Page(t.events, limit)));
            && (r == None <==> t.events == [])
            && (r.Some? ==>
                  && r.value.reserveA == Decimal.Text(t.reserveA) && r.value.reserveB == Decimal.Text(t.reserveB)
                  && r.value.totalShares == Decimal.Text(t.totalShares)
                  && r.value.tokenA == Some(tokenA) && r.value.tokenB == Some(tokenB)
                  && (r.value.feeBps == None || r.value.feeBps == Some(feeBps)) && r.value.amplification == None)
  {
    var s := Cpmm.Fresh(tokenA, tokenB, feeBps);
    var t := Cpmm.Run(s, calls);
    RunLog(s, calls);
    RunTokens(s, calls);
    ParseFeed(t.events);
    if t.events != [] {
      var last := t.events[|t.events| - 1];
      var page := Page(t.events, limit);
      assert page[0] == RowOf(last);
      ParsedRow(last);
      assert ParseAll(page)[0] == Expected(last) && HasState(Expected(last));
      PageFees(t.events, limit, feeBps);
    }
  }

  lemma {:induction false} RunTokens(s: Cpmm.State, calls: seq<Cpmm.Call>)
    ensures var t := Cpmm.Run(s, calls);
            t.tokenA == s.tokenA && t.tokenB == s.tokenB && t.feeBps == s.feeBps
    decreases |calls|
  {
    if calls != [] { RunTokens(Cpmm.Step(s, calls[0]), calls[1..]); }
  }

  /** A page is its newest row and a page of the older rows. */
  lemma PageSplit(log: seq<Cpmm.Event>, limit: nat)
    requires log != [] && limit > 0
    ensures ParseAll(Page(log, limit)) == [Expected(log[|log| - 1])] + ParseAll(Page(log[..|log| - 1], limit - 1))
  {
    var last, init := log[|log| - 1], log[..|log| - 1];
    hide ParseEvent;
    ParseFeed(log);
    ParseFeed(init);
    ParsedRow(last);
    assert Page(log, limit)[0] == RowOf(last) && Page(log, limit)[1..] == Page(init, limit - 1);
  }

  lemma {:induction false} PageFees(log: seq<Cpmm.Event>, limit: nat, feeBps: int)
    requires forall i :: 0 <= i < |log| && log[i].Swapped? ==> log[i].feeBps == feeBps
    ensures FirstFee(ParseAll(Page(log, limit))) == None || FirstFee(ParseAll(Page(log, limit))) == Some(feeBps)
    ensures FirstAmplification(ParseAll(Page(log, limit))) == None
    decreases |log|
  {
    if log == [] || limit == 0 {
      ParseFeed(log);
      assert Page(log, limit) == [];
    } else {
      var last, init := log[|log| - 1], log[..|log| - 1];
      PageSplit(log, limit);
      PageFees(init, limit - 1, feeBps);
      assert ParseAll(Page(log, limit))[1..] == ParseAll(Page(init, limit - 1));
    }
  }
}

/** Access rules of the data plane (crates/tunnel-core/src/acl.rs, server/src/acl_store.rs). */
module Acl {
  import opened Prelude
  import opened Bytes
  import opened Cidr
  import HostRoutes

  datatype Action = Allow | Deny

  /** A block as written in a rule: one that parses, or not. */
  datatype CidrText = Parsed(block: Block) | Malformed

  datatype Rule = Rule(
    action: Action,
    sourceCidr: Option<CidrText>,
    sourcePort: Option<u16>,
    targetHost: Option<string>,
    targetPort: Option<u16>)

  datatype Connection = Connection(ip: IpAddr, port: u16, host: string, targetPort: u16)

  /** A row of the database. The action may be unknown, the route id malformed, a port any integer. */
  datatype Row = Row(
    action: Option<Action>,
    route: Option<Option<RouteId>>,
    sourceCidr: Option<CidrText>,
    sourcePort: Option<int>,
    targetHost: Option<string>,
    targetPort: Option<int>)

  // ---------------------------------------------------------------- one rule

  predicate CidrMatches(c: CidrText, ip: IpAddr) {
    c.Parsed? && c.block.prefix <= Width(c.block.net.family) && Matches(c.block, ip)
  }

  predicate EqualIgnoringCase(a: string, b: string) {
    HostRoutes.Lower(a) == HostRoutes.Lower(b)
  }

  predicate RuleMatches(r: Rule, c: Connection) {
    && (r.sourceCidr.Some? ==> CidrMatches(r.sourceCidr.value, c.ip))
    && (r.sourcePort.Some? ==> r.sourcePort.value == c.port)
    && (r.targetHost.Some? ==> EqualIgnoringCase(r.targetHost.value, c.host))
    && (r.targetPort.Some? ==> r.targetPort.value == c.targetPort)
  }

  // ---------------------------------------------------------------- field by field

  /** The address lies in the block's interval. */
  ghost predicate Covers(c: CidrText, ip: IpAddr) {
    c.Parsed? && c.block.prefix <= Width(c.block.net.family) && InBlock(c.block, ip)
  }

  /** What parsing ensures of a block. */
  ghost predicate ParsedWell(c: Option<CidrText>) {
    c.Some? && c.value.Parsed? ==> ValidBlock(c.value.block)
  }

  /** The rule speaks of the connection, field by field; a field that is not set says nothing. */
  ghost predicate RuleReads(r: Rule, c: Connection) {
    && (r.sourceCidr == None || Covers(r.sourceCidr.value, c.ip))
    && (r.sourcePort == None || r.sourcePort == Some(c.port))
    && (r.targetHost == None || HostRoutes.SameHost(r.targetHost.value, c.host))
    && (r.targetPort == None || r.targetPort == Some(c.targetPort))
  }

  lemma RuleExactly(r: Rule, c: Connection)
    requires ParsedWell(r.sourceCidr) && ValidIp(c.ip)
    ensures RuleMatches(r, c) <==> RuleReads(r, c)
  {
    if r.sourceCidr.Some? && r.sourceCidr.value.Parsed? {
      MatchesIsInterval(r.sourceCidr.value.block, c.ip);
    }
    if r.targetHost.Some? {
      HostRoutes.LowerSame(r.targetHost.value, c.host);
    }
  }

  /** A rule without fields matches everything, and each field narrows it by itself. */
  lemma FieldsNarrow(r: Rule, c: Connection, block: Block, port: u16, host: string)
    requires ValidBlock(block) && ValidIp(c.ip)
    ensures RuleMatches(Rule(r.action, None, None, None, None), c)
    ensures RuleMatches(r.(sourceCidr := Some(Parsed(block))), c) <==>
      RuleMatches(r.(sourceCidr := None), c) && InBlock(block, c.ip)
    ensures !RuleMatches(r.(sourceCidr := Some(Malformed)), c)
    ensures RuleMatches(r.(sourcePort := Some(port)), c) <==> RuleMatches(r.(sourcePort := None), c) && c.port == port
    ensures RuleMatches(r.(targetHost := Some(host)), c) <==>
      RuleMatches(r.(targetHost := None), c) && HostRoutes.SameHost(host, c.host)
    ensures RuleMatches(r.(targetPort := Some(port)), c) <==>
      RuleMatches(r.(targetPort := None), c) && c.targetPort == port
  {
    MatchesIsInterval(block, c.ip);
    HostRoutes.LowerSame(host, c.host);
  }

  /** The loop over the rules: a deny that matches ends it. */
  method EvaluateAcl(rules: seq<Rule>, c: Connection) returns (allowed: bool)
    ensures allowed <==>
      && (exists rule | rule in rules :: RuleHits(rule, Allow, c))
      && !(exists rule | rule in rules :: RuleHits(rule, Deny, c))
    ensures ValidIp(c.ip) && (forall rule | rule in rules :: ParsedWell(rule.sourceCidr)) ==>
      (allowed <==>
        && (exists rule | rule in rules :: rule.action == Allow && RuleReads(rule, c))
        && !(exists rule | rule in rules :: rule.action == Deny && RuleReads(rule, c)))
  {
    if ValidIp(c.ip) {
      forall rule | rule in rules && ParsedWell(rule.sourceCidr) ensures RuleMatches(rule, c) <==> RuleReads(rule, c) {
        RuleExactly(rule, c);
      }
    }
    allowed := false;
    for i := 0 to |rules|
      invariant allowed <==> exists j | 0 <= j < i :: RuleHits(rules[j], Allow, c)
      invariant forall j | 0 <= j < i :: !RuleHits(rules[j], Deny, c)
    {
      if RuleMatches(rules[i], c) {
        match rules[i].action {
          case Deny =>
            assert RuleHits(rules[i], Deny, c);
            return false;
          case Allow =>
            allowed := true;
        }
      }
    }
  }

  // ---------------------------------------------------------------- rows

  /** A port that fits 16 bits; any other becomes no port at all. */
  function Port(p: Option<int>): Option<u16> {
    if p.Some? && 0 <= p.value < 0x1_0000 then Some(p.value) else None
  }

  function RowToRule(row: Row): Option<Rule> {
    match row.action
    case None => None
    case Some(action) =>
      Some(Rule(action, row.sourceCidr, Port(row.sourcePort), row.targetHost, Port(row.targetPort)))
  }

  /** The rows for one route, or for all routes, as rules. */
  function Select(rows: seq<Row>, route: Option<RouteId>): seq<Rule> {
    if rows == [] then []
    else
      var n := |rows| - 1;
      Select(rows[..n], route) + if IsFor(rows[n], route) then [RowToRule(rows[n]).value] else []
  }

  predicate IsFor(row: Row, route: Option<RouteId>) {
    row.action.Some? && match route
      case None => row.route == None
      case Some(id) => row.route == Some(Some(id))
  }

  function RulesOf(byRoute: map<RouteId, seq<Rule>>, route: RouteId): seq<Rule> {
    if route in byRoute then byRoute[route] else []
  }

  lemma SelectNext(rows: seq<Row>, i: nat, route: Option<RouteId>)
    requires i < |rows|
    ensures Select(rows[..i + 1], route) ==
      Select(rows[..i], route) + if IsFor(rows[i], route) then [RowToRule(rows[i]).value] else []
  {
    assert rows[..i + 1][..i] == rows[..i];
  }

  /** The rules of the rows, those for all routes and those for each. */
  method Group(rows: seq<Row>) returns (global: seq<Rule>, byRoute: map<RouteId, seq<Rule>>)
    ensures global == Select(rows, None)
    ensures forall r :: RulesOf(byRoute, r) == Select(rows, Some(r))
  {
    global, byRoute := [], map[];
    for i := 0 to |rows|
      invariant global == Select(rows[..i], None)
      invariant forall r :: RulesOf(byRoute, r) == Select(rows[..i], Some(r))
    {
      SelectNext(rows, i, None);
      forall r ensures Select(rows[..i + 1], Some(r)) ==
        RulesOf(byRoute, r) + if IsFor(rows[i], Some(r)) then [RowToRule(rows[i]).value] else []
      {
        SelectNext(rows, i, Some(r));
      }
      var rule := RowToRule(rows[i]);
      if rule.Some? {
        match rows[i].route {
          case None =>
            global := global + [rule.value];
          case Some(Some(r)) =>
            byRoute := byRoute[r := RulesOf(byRoute, r) + [rule.value]];
          case Some(None) =>
        }
      }
    }
    assert rows[..|rows|] == rows;
  }

  class AclStore {
    var global: seq<Rule>
    var byRoute: map<RouteId, seq<Rule>>
    /** The rows of the snapshot in force. */
    ghost var rows: seq<Row>

    constructor ()
      ensures Valid() && rows == []
    {
      global, byRoute, rows := [], map[], [];
    }

    function For(route: RouteId): seq<Rule>
      reads this
    {
      RulesOf(byRoute, route)
    }

    ghost predicate Valid()
      reads this
    {
      global == Select(rows, None) && forall r :: For(r) == Select(rows, Some(r))
    }

    /** Groups the rows the database gives; without any the store stays as it is. */
    method Reload(loaded: Option<seq<Row>>)
      requires Valid()
      modifies this
      ensures Valid()
      ensures rows == if loaded.Some? then loaded.value else old(rows)
    {
      if loaded == None {
        return;
      }
      global, byRoute := Group(loaded.value);
      rows := loaded.value;
    }

    /** Decides as the rows say, read as one list without groups or order. */
    method Allows(route: RouteId, c: Connection) returns (ok: bool)
      requires Valid()
      ensures ok <==> Allowed(rows, route, c)
      ensures ValidIp(c.ip) && (forall row | row in rows :: ParsedWell(row.sourceCidr)) ==>
        (ok <==> AllowedByField(rows, route, c))
    {
      if ValidIp(c.ip) && (forall row | row in rows :: ParsedWell(row.sourceCidr)) {
        AllowedExactly(rows, route, c);
      }
      MergedMeaning(rows, route, Allow, c);
      MergedMeaning(rows, route, Deny, c);
      var own := For(route);
      if global == [] && own == [] {
        return true;
      }
      ok := EvaluateAcl(global + own, c);
    }
  }

  // ---------------------------------------------------------------- the flat reading

  /** The row has a say in connections of the route. */
  predicate Applies(row: Row, route: RouteId) {
    row.action.Some? && (row.route == None || row.route == Some(Some(route)))
  }

  predicate Hits(row: Row, route: RouteId, action: Action, c: Connection) {
    Applies(row, route) && row.action == Some(action) && RuleMatches(RowToRule(row).value, c)
  }

  /** No row applies; or some row that applies allows it and none denies it. */
  ghost predicate Allowed(rows: seq<Row>, route: RouteId, c: Connection) {
    || (forall row | row in rows :: !Applies(row, route))
    || (&& (exists row | row in rows :: Hits(row, route, Allow, c))
        && (forall row | row in rows :: !Hits(row, route, Deny, c)))
  }

  /** The row is for this route or for all, and says this. */
  predicate Says(row: Row, route: RouteId, action: Action) {
    row.action == Some(action) && (row.route == None || row.route == Some(Some(route)))
  }

  /** The port of a row: one out of range is as good as none. */
  predicate PortReads(p: Option<int>, port: u16) {
    p == None || p.value < 0 || p.value > 65535 || p.value == port
  }

  /** The row speaks of the connection, field by field. */
  ghost predicate RowReads(row: Row, c: Connection) {
    && (row.sourceCidr == None || Covers(row.sourceCidr.value, c.ip))
    && PortReads(row.sourcePort, c.port)
    && (row.targetHost == None || HostRoutes.SameHost(row.targetHost.value, c.host))
    && PortReads(row.targetPort, c.targetPort)
  }

  /** The decision in terms of the rows' own fields. */
  ghost predicate AllowedByField(rows: seq<Row>, route: RouteId, c: Connection) {
    || (forall row | row in rows :: !Says(row, route, Allow) && !Says(row, route, Deny))
    || (&& (exists row | row in rows :: Says(row, route, Allow) && RowReads(row, c))
        && (forall row | row in rows :: !(Says(row, route, Deny) && RowReads(row, c))))
  }

  lemma HitsExactly(row: Row, route: RouteId, action: Action, c: Connection)
    requires ParsedWell(row.sourceCidr) && ValidIp(c.ip)
    ensures Hits(row, route, action, c) <==> Says(row, route, action) && RowReads(row, c)
    ensures Applies(row, route) <==> Says(row, route, Allow) || Says(row, route, Deny)
  {
    if row.action.Some? {
      RuleExactly(RowToRule(row).value, c);
      assert row.action.value == Allow || row.action.value == Deny;
    }
  }

  lemma AllowedExactly(rows: seq<Row>, route: RouteId, c: Connection)
    requires ValidIp(c.ip) && forall row | row in rows :: ParsedWell(row.sourceCidr)
    ensures Allowed(rows, route, c) <==> AllowedByField(rows, route, c)
  {
    forall row | row in rows
      ensures Hits(row, route, Allow, c) <==> Says(row, route, Allow) && RowReads(row, c)
      ensures Hits(row, route, Deny, c) <==> Says(row, route, Deny) && RowReads(row, c)
      ensures Applies(row, route) <==> Says(row, route, Allow) || Says(row, route, Deny)
    {
      HitsExactly(row, route, Allow, c);
      HitsExactly(row, route, Deny, c);
    }
  }

  lemma {:induction false} SelectMeaning(rows: seq<Row>, route: Option<RouteId>)
    ensures forall row | row in rows && IsFor(row, route) :: RowToRule(row).value in Select(rows, route)
    ensures forall rule | rule in Select(rows, route) ::
      exists row | row in rows :: IsFor(row, route) && RowToRule(row).value == rule
  {
    if rows != [] {
      var n := |rows| - 1;
      SelectMeaning(rows[..n], route);
      assert forall row :: row in rows <==> row in rows[..n] || row == rows[n] by {
        assert rows == rows[..n] + [rows[n]];
      }
    }
  }

  function Merged(rows: seq<Row>, route: RouteId): seq<Rule> {
    Select(rows, None) + Select(rows, Some(route))
  }

  predicate RuleHits(rule: Rule, action: Action, c: Connection) {
    rule.action == action && RuleMatches(rule, c)
  }

  /** The merged rules are those of the rows that apply. */
  lemma MergedRules(rows: seq<Row>, route: RouteId)
    ensures forall row | row in rows && Applies(row, route) :: RowToRule(row).value in Merged(rows, route)
    ensures forall rule | rule in Merged(rows, route) ::
      exists row | row in rows :: Applies(row, route) && RowToRule(row).value == rule
  {
    SelectMeaning(rows, None);
    SelectMeaning(rows, Some(route));
    forall row | row in rows && Applies(row, route) ensures RowToRule(row).value in Merged(rows, route) {
      assert IsFor(row, None) || IsFor(row, Some(route));
    }
    forall rule | rule in Merged(rows, route)
      ensures exists row | row in rows :: Applies(row, route) && RowToRule(row).value == rule
    {
      assert rule in Select(rows, None) || rule in Select(rows, Some(route));
      var row :| row in rows && (IsFor(row, None) || IsFor(row, Some(route))) && RowToRule(row).value == rule;
      assert Applies(row, route);
    }
  }

  lemma MergedMeaning(rows: seq<Row>, route: RouteId, action: Action, c: Connection)
    ensures Merged(rows, route) == [] <==> forall row | row in rows :: !Applies(row, route)
    ensures (exists rule | rule in Merged(rows, route) :: RuleHits(rule, action, c)) <==>
            (exists row | row in rows :: Hits(row, route, action, c))
  {
    MergedRules(rows, route);
    if Merged(rows, route) != [] {
      assert Merged(rows, route)[0] in Merged(rows, route);
    }
    if row :| row in rows && Hits(row, route, action, c) {
      assert RuleHits(RowToRule(row).value, action, c);
    }
  }

  /** The order of the rows does not matter, nor how often one occurs. */
  lemma OrderIrrelevant(rows: seq<Row>, others: seq<Row>, route: RouteId, c: Connection)
    requires forall row :: row in rows <==> row in others
    ensures Allowed(rows, route, c) <==> Allowed(others, route, c)
  {
  }

  /** The rows of other routes have no effect. */
  lemma OtherRoutesIrrelevant(rows: seq<Row>, others: seq<Row>, route: RouteId, c: Connection)
    requires forall row | row in others :: row.route.Some? && row.route != Some(Some(route))
    ensures Allowed(rows + others, route, c) <==> Allowed(rows, route, c)
  {
    assert forall row | row in others :: !Applies(row, route);
    assert forall row :: row in rows + others <==> row in rows || row in others;
  }

  // ---------------------------------------------------------------- ports out of range

  predicate InRange(p: Option<int>) {
    p.Some? ==> 0 <= p.value < 0x1_0000
  }

  /** The rule as documented: a row with a port out of range is no rule. */
  predicate DocumentedMatch(row: Row, c: Connection) {
    row.action.Some? && InRange(row.sourcePort) && InRange(row.targetPort) && RuleMatches(RowToRule(row).value, c)
  }

  /** The connection a row is made for, if its block is well formed. */
  ghost function Typical(row: Row): Connection {
    Connection(
      (if row.sourceCidr.Some? && row.sourceCidr.value.Parsed? then row.sourceCidr.value.block.net else IpAddr(V4, 0)),
      (if Port(row.sourcePort).Some? then Port(row.sourcePort).value else 0),
      (if row.targetHost.Some? then row.targetHost.value else ""),
      (if Port(row.targetPort).Some? then Port(row.targetPort).value else 0))
  }

  /** The block, if any, can match something. */
  predicate BlockUsable(row: Row) {
    row.sourceCidr.Some? ==>
      var c := row.sourceCidr.value; c.Parsed? && c.block.prefix <= Width(c.block.net.family)
  }

  /**
   A row does what is documented, for all connections, exactly when its ports are in range or it
   can match nothing anyway. A row with a port out of range otherwise matches every port.
   */
  lemma RowAsDocumented(row: Row)
    requires row.action.Some?
    ensures (forall c :: RuleMatches(RowToRule(row).value, c) <==> DocumentedMatch(row, c)) <==>
      (InRange(row.sourcePort) && InRange(row.targetPort)) || !BlockUsable(row)
  {
    if BlockUsable(row) {
      assert RuleMatches(RowToRule(row).value, Typical(row));
    }
  }
}

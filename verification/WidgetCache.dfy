/** The public widget configuration behind a read-through cache, with every handler as
    one atomic operation and a cache that works. */
module WidgetCache {
  import opened Text
  import opened Options

  type Config = map<string, string>

  /** A row of widget_keys; user and key are both unique in the table. */
  datatype Row = Row(user: string, id: nat, key: string, name: string, active: bool, stored: seq<string>, config: Config)

  datatype Payload = Payload(id: nat, name: string, key: string, settings: Config)

  datatype Entry = Entry(response: Payload, widgetID: nat, allowedDomains: seq<string>)

  datatype State = State(rows: seq<Row>, cache: map<string, Entry>)

  datatype Reply = NotFound | NotConfigured | Denied | Served(payload: Payload)

  /** Deployment mode and the normalisation of stored domain lists. */
  datatype Setup = Setup(production: bool, parse: seq<string> -> seq<string>)

  // ---- domains ----------------------------------------------------------

  predicate IsSuffix(s: string, suffix: string) {
    |suffix| <= |s| && s[|s| - |suffix|..] == suffix
  }

  predicate DomainMatches(allowed: string, domain: string) {
    || allowed == domain
    || ("*." <= allowed && (domain == allowed[2..] || IsSuffix(domain, "." + allowed[2..])))
  }

  predicate IsAllowed(allowedDomains: seq<string>, domain: string) {
    allowedDomains == [] || (domain != "" && exists i :: 0 <= i < |allowedDomains| && DomainMatches(allowedDomains[i], domain))
  }

  ghost function Below(prefix: string, base: string): string {
    prefix + ("." + base)
  }

  /** What an entry of a domain list stands for: itself, and behind "*." a domain with
      everything below it. */
  ghost predicate Admits(entry: string, domain: string) {
    || domain == entry
    || (|entry| >= 2 && entry[0] == '*' && entry[1] == '.' &&
        (domain == entry[2..] || exists prefix :: domain == Below(prefix, entry[2..])))
  }

  /** Every domain is welcome to an empty list; otherwise some entry has to admit it. */
  ghost predicate ListAdmits(allowedDomains: seq<string>, domain: string) {
    allowedDomains == [] || (domain != "" && exists entry :: entry in allowedDomains && Admits(entry, domain))
  }

  lemma SuffixIff(domain: string, base: string)
    ensures IsSuffix(domain, "." + base) <==> exists prefix :: domain == Below(prefix, base)
  {
    if IsSuffix(domain, "." + base) {
      var n := |domain| - |"." + base|;
      Halves(domain, n);
      assert domain == Below(domain[..n], base);
    }
    if prefix :| domain == Below(prefix, base) {
      assert Below(prefix, base)[|prefix|..] == "." + base;
    }
  }

  lemma MatchesIff(entry: string, domain: string)
    ensures DomainMatches(entry, domain) <==> Admits(entry, domain)
  {
    if |entry| >= 2 {
      SuffixIff(domain, entry[2..]);
      assert "*." <= entry <==> entry[0] == '*' && entry[1] == '.';
    }
  }

  /** The check admits exactly what the entries stand for. */
  lemma AllowedIff(allowedDomains: seq<string>, domain: string)
    ensures IsAllowed(allowedDomains, domain) <==> ListAdmits(allowedDomains, domain)
  {
    forall i | 0 <= i < |allowedDomains|
      ensures DomainMatches(allowedDomains[i], domain) <==> Admits(allowedDomains[i], domain)
    {
      MatchesIff(allowedDomains[i], domain);
    }
    if entry :| entry in allowedDomains && Admits(entry, domain) {
      var i :| 0 <= i < |allowedDomains| && allowedDomains[i] == entry;
    }
  }

  /** Below a domain there is a dot: another domain that only ends in the same letters is
      not admitted. */
  lemma SuffixAloneIsDenied(base: string, other: string)
    requires base != "" && other != "" && other[|other| - 1] != '.' && other + base != "*." + base
    ensures !IsAllowed(["*." + base], other + base)
  {
    var domain := other + base;
    AllowedIff(["*." + base], domain);
    assert ("*." + base)[2..] == base;
    assert domain[|other| - 1] == other[|other| - 1];
    if prefix :| domain == Below(prefix, base) {
      DotAbove(prefix, base);
    }
  }

  lemma DotAbove(prefix: string, base: string)
    ensures var d := Below(prefix, base); |base| < |d| && d[|d| - |base| - 1] == '.'
  {
  }

  method IsWidgetRequestAllowed(allowedDomains: seq<string>, reqDomain: string) returns (ok: bool)
    ensures ok == IsAllowed(allowedDomains, reqDomain)
    ensures ok <==> ListAdmits(allowedDomains, reqDomain)
  {
    AllowedIff(allowedDomains, reqDomain);
    if |allowedDomains| == 0 {
      return true;
    }
    if reqDomain == "" {
      return false;
    }
    for i := 0 to |allowedDomains|
      invariant forall j :: 0 <= j < i ==> !DomainMatches(allowedDomains[j], reqDomain)
    {
      var allowed := allowedDomains[i];
      if allowed == reqDomain {
        return true;
      }
      if "*." <= allowed {
        var base := allowed[2..];
        if reqDomain == base || IsSuffix(reqDomain, "." + base) {
          return true;
        }
      }
    }
    return false;
  }

  // ---- the table --------------------------------------------------------

  function FindKey(rows: seq<Row>, key: string): Option<Row> {
    if rows == [] then None else if rows[0].key == key then Some(rows[0]) else FindKey(rows[1..], key)
  }

  function FindUser(rows: seq<Row>, user: string): Option<Row> {
    if rows == [] then None else if rows[0].user == user then Some(rows[0]) else FindUser(rows[1..], user)
  }

  /** UPDATE ... WHERE user_id = row.user. */
  function Update(rows: seq<Row>, row: Row): seq<Row> {
    if rows == [] then []
    else [if rows[0].user == row.user then row else rows[0]] + Update(rows[1..], row)
  }

  function Without(rows: seq<Row>, user: string): seq<Row> {
    if rows == [] then []
    else (if rows[0].user == user then [] else [rows[0]]) + Without(rows[1..], user)
  }

  ghost predicate Unique(rows: seq<Row>) {
    forall i, j :: 0 <= i < j < |rows| ==> rows[i].user != rows[j].user && rows[i].key != rows[j].key
  }

  // ---- reading ----------------------------------------------------------

  function PayloadOf(r: Row): Payload {
    Payload(r.id, r.name, r.key, r.config)
  }

  function EntryOf(setup: Setup, r: Row): Entry {
    Entry(PayloadOf(r), r.id, setup.parse(r.stored))
  }

  /** The reply without a cache, for a key that is already trimmed. */
  function UncachedAt(setup: Setup, rows: seq<Row>, key: string, domain: string): Reply {
    var row := FindKey(rows, key);
    if key == "" || row.None? || !row.value.active then NotFound
    else
      var domains := setup.parse(row.value.stored);
      if setup.production && domains == [] then NotConfigured
      else if !IsAllowed(domains, domain) then Denied
      else Served(PayloadOf(row.value))
  }

  /** The reply with the cache, and the state it leaves. */
  function ReadAt(setup: Setup, s: State, key: string, domain: string): (Reply, State) {
    if key == "" then (NotFound, s)
    else if key in s.cache then
      (if !IsAllowed(s.cache[key].allowedDomains, domain) then Denied else Served(s.cache[key].response), s)
    else
      var reply := UncachedAt(setup, s.rows, key, domain);
      if reply.Served? then (reply, s.(cache := s.cache[key := EntryOf(setup, FindKey(s.rows, key).value)])) else (reply, s)
  }

  /** The handler trims the key of the request path. */
  function Uncached(setup: Setup, rows: seq<Row>, key: string, domain: string): Reply {
    UncachedAt(setup, rows, Trim(key, GO_SPACE), domain)
  }

  function Read(setup: Setup, s: State, key: string, domain: string): (Reply, State) {
    ReadAt(setup, s, Trim(key, GO_SPACE), domain)
  }

  // ---- writing ----------------------------------------------------------

  datatype Op =
    | Create(user: string, id: nat, newKey: string, name: string, domains: seq<string>, config: Config)
    | Replace(user: string, rename: Option<string>, redomain: Option<seq<string>>, config: Config)
    | Regenerate(user: string, newKey: string)
    | Merge(user: string, patch: Config)
    | Load(key: string, domain: string)
    | Expire(key: string)

  /** A key that a row of another user holds cannot be written to the user's row. */
  predicate KeyTaken(rows: seq<Row>, user: string, key: string) {
    FindKey(rows, key).Some? && FindKey(rows, key).value.user != user
  }

  function Apply(setup: Setup, s: State, op: Op): State {
    match op
    case Create(user, id, newKey, name, domains, config) =>
      var found := FindUser(s.rows, user);
      if found.Some? then
        var row := found.value.(name := name, stored := domains, config := config, active := true);
        State(Update(s.rows, row), s.cache - {row.key})
      else if FindKey(s.rows, newKey).Some? then s
      else State(s.rows + [Row(user, id, newKey, name, true, domains, config)], s.cache - {newKey})
    case Replace(user, name, domains, config) =>
      var found := FindUser(s.rows, user);
      if found.None? then s
      else
        var r := found.value;
        var row := r.(name := if name.Some? then name.value else r.name, config := config,
                      stored := if domains.Some? then domains.value else r.stored);
        State(Update(s.rows, row), s.cache - {row.key})
    case Regenerate(user, newKey) =>
      var found := FindUser(s.rows, user);
      if found.None? then s.(cache := s.cache - {newKey})
      else if KeyTaken(s.rows, user, newKey) then s
      else State(Update(s.rows, found.value.(key := newKey)), s.cache - {found.value.key} - {newKey})
    case Merge(user, patch) =>
      var found := FindUser(s.rows, user);
      if found.None? then s
      else
        var row := found.value.(config := found.value.config + patch);
        State(Update(s.rows, row), s.cache - {row.key})
    case Load(key, domain) => Read(setup, s, key, domain).1
    case Expire(key) => s.(cache := s.cache - {key})
  }

  // ---- coherence --------------------------------------------------------

  /** Every entry is what the uncached path would build from the current row, the row is
      active, and in production its domain list is not empty. */
  ghost predicate Coherent(setup: Setup, s: State) {
    && Unique(s.rows)
    && forall k :: k in s.cache ==>
         && FindKey(s.rows, k).Some? && FindKey(s.rows, k).value.active
         && s.cache[k] == EntryOf(setup, FindKey(s.rows, k).value)
         && (setup.production ==> s.cache[k].allowedDomains != [])
  }

  lemma {:induction false} FindKeyIs(rows: seq<Row>, key: string)
    ensures FindKey(rows, key).Some? ==> FindKey(rows, key).value in rows && FindKey(rows, key).value.key == key
    ensures FindKey(rows, key).None? <==> forall i :: 0 <= i < |rows| ==> rows[i].key != key
  {
    if rows != [] && rows[0].key != key { FindKeyIs(rows[1..], key); }
  }

  lemma {:induction false} FindUserIs(rows: seq<Row>, user: string)
    ensures FindUser(rows, user).Some? ==> FindUser(rows, user).value in rows && FindUser(rows, user).value.user == user
    ensures FindUser(rows, user).None? <==> forall i :: 0 <= i < |rows| ==> rows[i].user != user
  {
    if rows != [] && rows[0].user != user { FindUserIs(rows[1..], user); }
  }

  lemma {:induction false} UpdateAt(rows: seq<Row>, row: Row)
    ensures |Update(rows, row)| == |rows|
    ensures forall i :: 0 <= i < |rows| ==> Update(rows, row)[i] == if rows[i].user == row.user then row else rows[i]
  {
    if rows == [] {
    } else {
      UpdateAt(rows[1..], row);
    }
  }

  /** With unique users and keys, an update of one row changes the lookup of its old and
      new key only. */
  lemma {:induction false} UpdateLookup(rows: seq<Row>, was: Row, row: Row, k: string)
    requires Unique(rows) && was in rows && was.user == row.user
    requires k != was.key && k != row.key
    ensures FindKey(Update(rows, row), k) == FindKey(rows, k)
  {
    if rows[0].user == row.user {
      assert rows[0] == was by {
        var i :| 0 <= i < |rows| && rows[i] == was;
        assert i == 0;
      }
      UpdateMisses(rows[1..], row);
    } else {
      assert was in rows[1..] by {
        var i :| 0 <= i < |rows| && rows[i] == was;
        assert rows[1..][i - 1] == was;
      }
      UpdateLookup(rows[1..], was, row, k);
    }
  }

  lemma {:induction false} UpdateMisses(rows: seq<Row>, row: Row)
    requires forall i :: 0 <= i < |rows| ==> rows[i].user != row.user
    ensures Update(rows, row) == rows
  {
    if rows == [] {
    } else {
      UpdateMisses(rows[1..], row);
    }
  }

  lemma UpdateKeepsUnique(rows: seq<Row>, row: Row)
    requires Unique(rows)
    requires forall i :: 0 <= i < |rows| && rows[i].user != row.user ==> rows[i].key != row.key
    ensures Unique(Update(rows, row))
  {
    UpdateAt(rows, row);
  }

  lemma {:induction false} AppendLookup(rows: seq<Row>, row: Row, k: string)
    requires k != row.key
    ensures FindKey(rows + [row], k) == FindKey(rows, k)
  {
    if rows == [] {
      assert rows + [row] == [row] && [row][1..] == [];
    } else {
      assert (rows + [row])[0] == rows[0] && (rows + [row])[1..] == rows[1..] + [row];
      AppendLookup(rows[1..], row, k);
    }
  }

  /** Writing one row and dropping its old and new key from the cache keeps coherence. */
  lemma WriteKeepsCoherent(setup: Setup, s: State, was: Row, row: Row)
    requires Coherent(setup, s) && was in s.rows && was.user == row.user
    requires row.key == was.key || FindKey(s.rows, row.key).None? || FindKey(s.rows, row.key).value.user == row.user
    ensures Coherent(setup, State(Update(s.rows, row), s.cache - {was.key} - {row.key}))
  {
    forall i | 0 <= i < |s.rows| && s.rows[i].user != row.user ensures s.rows[i].key != row.key {
      var j :| 0 <= j < |s.rows| && s.rows[j] == was;
      FindKeyIs(s.rows, row.key);
      if FindKey(s.rows, row.key).Some? {
        var k :| 0 <= k < |s.rows| && s.rows[k] == FindKey(s.rows, row.key).value;
      }
    }
    UpdateKeepsUnique(s.rows, row);
    var s' := State(Update(s.rows, row), s.cache - {was.key} - {row.key});
    forall k | k in s'.cache ensures FindKey(s'.rows, k) == FindKey(s.rows, k) {
      UpdateLookup(s.rows, was, row, k);
    }
  }

  lemma WriteInPlace(setup: Setup, s: State, user: string, row: Row)
    requires Coherent(setup, s) && FindUser(s.rows, user).Some?
    requires row.user == user && row.key == FindUser(s.rows, user).value.key
    ensures Coherent(setup, State(Update(s.rows, row), s.cache - {row.key}))
  {
    FindUserIs(s.rows, user);
    WriteKeepsCoherent(setup, s, FindUser(s.rows, user).value, row);
    assert s.cache - {row.key} - {row.key} == s.cache - {row.key};
  }

  lemma CreateKeepsCoherent(setup: Setup, s: State, row: Row)
    requires Coherent(setup, s) && FindUser(s.rows, row.user).None? && FindKey(s.rows, row.key).None?
    ensures Coherent(setup, State(s.rows + [row], s.cache - {row.key}))
  {
    FindUserIs(s.rows, row.user);
    FindKeyIs(s.rows, row.key);
    forall k | k in s.cache - {row.key} ensures FindKey(s.rows + [row], k) == FindKey(s.rows, k) {
      AppendLookup(s.rows, row, k);
    }
  }

  lemma RegenerateKeepsCoherent(setup: Setup, s: State, user: string, newKey: string)
    requires Coherent(setup, s)
    ensures Coherent(setup, Apply(setup, s, Regenerate(user, newKey)))
  {
    FindUserIs(s.rows, user);
    if !KeyTaken(s.rows, user, newKey) && FindUser(s.rows, user).Some? {
      WriteKeepsCoherent(setup, s, FindUser(s.rows, user).value, FindUser(s.rows, user).value.(key := newKey));
    }
  }

  lemma ReadKeepsCoherent(setup: Setup, s: State, key: string, domain: string)
    requires Coherent(setup, s)
    ensures Coherent(setup, ReadAt(setup, s, key, domain).1)
    ensures ReadAt(setup, s, key, domain).0 == UncachedAt(setup, s.rows, key, domain)
  {
  }

  lemma ApplyKeepsCoherent(setup: Setup, s: State, op: Op)
    requires Coherent(setup, s)
    ensures Coherent(setup, Apply(setup, s, op))
  {
    match op
    case Create(user, id, newKey, name, domains, config) =>
      FindUserIs(s.rows, user);
      var found := FindUser(s.rows, user);
      if found.Some? {
        WriteInPlace(setup, s, user, found.value.(name := name, stored := domains, config := config, active := true));
      } else if FindKey(s.rows, newKey).None? {
        CreateKeepsCoherent(setup, s, Row(user, id, newKey, name, true, domains, config));
      }
    case Replace(user, name, domains, config) =>
      FindUserIs(s.rows, user);
      var found := FindUser(s.rows, user);
      if found.Some? {
        var r := found.value;
        WriteInPlace(setup, s, user, r.(name := if name.Some? then name.value else r.name, config := config,
                                        stored := if domains.Some? then domains.value else r.stored));
      }
    case Regenerate(user, newKey) => RegenerateKeepsCoherent(setup, s, user, newKey);
    case Merge(user, patch) =>
      FindUserIs(s.rows, user);
      var found := FindUser(s.rows, user);
      if found.Some? { WriteInPlace(setup, s, user, found.value.(config := found.value.config + patch)); }
    case Load(key, domain) => ReadKeepsCoherent(setup, s, Trim(key, GO_SPACE), domain);
    case Expire(_) =>
  }

  // ---- what a request gets ----------------------------------------------

  /** The row of a trimmed key that a request may see. */
  ghost predicate IsShown(rows: seq<Row>, key: string, r: Row) {
    key != "" && r in rows && r.key == key && r.active
  }

  /** The right reply, from the table alone: nothing without an active row of the key, and
      in production nothing without a domain list; else the row's content, if the list
      admits the domain. */
  ghost predicate IsReply(setup: Setup, rows: seq<Row>, key: string, domain: string, reply: Reply) {
    match reply
    case NotFound => forall r :: !IsShown(rows, key, r)
    case NotConfigured => exists r :: IsShown(rows, key, r) && setup.production && setup.parse(r.stored) == []
    case Denied =>
      exists r :: IsShown(rows, key, r) && !(setup.production && setup.parse(r.stored) == []) &&
        !ListAdmits(setup.parse(r.stored), domain)
    case Served(payload) =>
      exists r :: IsShown(rows, key, r) && !(setup.production && setup.parse(r.stored) == []) &&
        ListAdmits(setup.parse(r.stored), domain) &&
        payload.id == r.id && payload.name == r.name && payload.key == r.key && payload.settings == r.config
  }

  lemma UncachedIsReply(setup: Setup, rows: seq<Row>, key: string, domain: string)
    ensures Unique(rows) ==> IsReply(setup, rows, key, domain, UncachedAt(setup, rows, key, domain))
  {
    FindKeyIs(rows, key);
    var row := FindKey(rows, key);
    if Unique(rows) && key != "" && row.Some? {
      forall r | r in rows && r.key == key ensures r == row.value {
        var i, j :| 0 <= i < |rows| && 0 <= j < |rows| && rows[i] == r && rows[j] == row.value;
      }
      AllowedIff(setup.parse(row.value.stored), domain);
      assert row.value.active ==> IsShown(rows, key, row.value);
    } else if row.None? {
      forall r | r in rows ensures r.key != key {
        var i :| 0 <= i < |rows| && rows[i] == r;
      }
    }
  }

  /** There is only one right reply. */
  lemma ReplyIsUnique(setup: Setup, rows: seq<Row>, key: string, domain: string, a: Reply, b: Reply)
    requires Unique(rows) && IsReply(setup, rows, key, domain, a) && IsReply(setup, rows, key, domain, b)
    ensures a == b
  {
    forall r, q | IsShown(rows, key, r) && IsShown(rows, key, q) ensures r == q {
      var i, j :| 0 <= i < |rows| && 0 <= j < |rows| && rows[i] == r && rows[j] == q;
    }
  }

  /** On a hit and on a fill alike the handler gives the right reply. */
  lemma ReadIsReply(setup: Setup, s: State, key: string, domain: string)
    requires Coherent(setup, s)
    ensures IsReply(setup, s.rows, Trim(key, GO_SPACE), domain, Read(setup, s, key, domain).0)
  {
    ReadKeepsCoherent(setup, s, Trim(key, GO_SPACE), domain);
    UncachedIsReply(setup, s.rows, Trim(key, GO_SPACE), domain);
  }

  // ---- what a write leaves ----------------------------------------------

  /** Of all rows only the user's may differ, and it keeps its user and id. */
  ghost predicate OnlyRowOf(rows: seq<Row>, after: seq<Row>, user: string) {
    && |after| == |rows|
    && forall i :: 0 <= i < |rows| ==>
         after[i].user == rows[i].user && after[i].id == rows[i].id && (rows[i].user != user ==> after[i] == rows[i])
  }

  lemma UserIsFound(rows: seq<Row>, i: nat)
    requires Unique(rows) && i < |rows|
    ensures FindUser(rows, rows[i].user) == Some(rows[i])
  {
    FindUserIs(rows, rows[i].user);
    var r := FindUser(rows, rows[i].user).value;
    var j :| 0 <= j < |rows| && rows[j] == r;
  }

  /** A merge: the patch wins, every other setting stays, and so does all else of the row. */
  lemma MergeWrites(setup: Setup, s: State, user: string, patch: Config, i: nat)
    requires Unique(s.rows) && i < |s.rows|
    ensures var after := Apply(setup, s, Merge(user, patch)).rows;
            && OnlyRowOf(s.rows, after, user)
            && (s.rows[i].user == user ==>
                  && after[i].name == s.rows[i].name && after[i].stored == s.rows[i].stored
                  && after[i].key == s.rows[i].key && after[i].active == s.rows[i].active
                  && (forall k :: k in after[i].config <==> k in patch || k in s.rows[i].config)
                  && (forall k :: k in patch ==> after[i].config[k] == patch[k])
                  && (forall k :: k in s.rows[i].config && k !in patch ==> after[i].config[k] == s.rows[i].config[k]))
  {
    UserIsFound(s.rows, i);
    WriteIsOnly(s.rows, user, FindUser(s.rows, user));
    if FindUser(s.rows, user).Some? {
      UpdateAt(s.rows, FindUser(s.rows, user).value.(config := FindUser(s.rows, user).value.config + patch));
    }
  }

  lemma WriteIsOnly(rows: seq<Row>, user: string, found: Option<Row>)
    requires Unique(rows) && found == FindUser(rows, user)
    ensures found.Some? ==> found.value.user == user
    ensures found.Some? ==> forall j :: 0 <= j < |rows| && rows[j].user == user ==> rows[j] == found.value
  {
    FindUserIs(rows, user);
    forall j | 0 <= j < |rows| && rows[j].user == user ensures found == Some(rows[j]) {
      UserIsFound(rows, j);
    }
  }

  /** A regeneration: the user's row gets the new key and keeps all else, unless another
      user's row has that key. */
  lemma RegenerateWrites(setup: Setup, s: State, user: string, newKey: string, i: nat)
    requires Unique(s.rows) && i < |s.rows|
    ensures var after := Apply(setup, s, Regenerate(user, newKey)).rows;
            && OnlyRowOf(s.rows, after, user)
            && (s.rows[i].user == user ==>
                  && after[i].name == s.rows[i].name && after[i].stored == s.rows[i].stored
                  && after[i].active == s.rows[i].active && after[i].config == s.rows[i].config
                  && after[i].key == if exists j :: 0 <= j < |s.rows| && s.rows[j].key == newKey && s.rows[j].user != user
                                     then s.rows[i].key else newKey)
  {
    WriteIsOnly(s.rows, user, FindUser(s.rows, user));
    FindUserIs(s.rows, user);
    TakenIff(s.rows, user, newKey);
    if FindUser(s.rows, user).Some? {
      UpdateAt(s.rows, FindUser(s.rows, user).value.(key := newKey));
    }
  }

  lemma TakenIff(rows: seq<Row>, user: string, key: string)
    requires Unique(rows)
    ensures KeyTaken(rows, user, key) <==> exists j :: 0 <= j < |rows| && rows[j].key == key && rows[j].user != user
  {
    FindKeyIs(rows, key);
    if FindKey(rows, key).Some? {
      var j :| 0 <= j < |rows| && rows[j] == FindKey(rows, key).value;
    }
  }

  /** An update: the configuration is the given one, name and domains stay unless given. */
  lemma ReplaceWrites(setup: Setup, s: State, user: string, name: Option<string>, domains: Option<seq<string>>,
                      config: Config, i: nat)
    requires Unique(s.rows) && i < |s.rows|
    ensures var after := Apply(setup, s, Replace(user, name, domains, config)).rows;
            && OnlyRowOf(s.rows, after, user)
            && (s.rows[i].user == user ==>
                  && after[i].config == config && after[i].key == s.rows[i].key && after[i].active == s.rows[i].active
                  && (name.Some? ==> after[i].name == name.value) && (name.None? ==> after[i].name == s.rows[i].name)
                  && (domains.Some? ==> after[i].stored == domains.value)
                  && (domains.None? ==> after[i].stored == s.rows[i].stored))
  {
    WriteIsOnly(s.rows, user, FindUser(s.rows, user));
    FindUserIs(s.rows, user);
    if FindUser(s.rows, user).Some? {
      var r := FindUser(s.rows, user).value;
      UpdateAt(s.rows, r.(name := if name.Some? then name.value else r.name, config := config,
                          stored := if domains.Some? then domains.value else r.stored));
    }
  }

  /** A creation: the user's row, old under its key or new under the new key, is active and
      has the given content; a key in use makes no row. */
  lemma CreateWrites(setup: Setup, s: State, user: string, id: nat, newKey: string, name: string,
                     domains: seq<string>, config: Config)
    requires Unique(s.rows)
    ensures var after := Apply(setup, s, Create(user, id, newKey, name, domains, config)).rows;
            && ((exists i :: 0 <= i < |s.rows| && s.rows[i].user == user) ==>
                  OnlyRowOf(s.rows, after, user) &&
                  forall i :: 0 <= i < |s.rows| && s.rows[i].user == user ==>
                    after[i].active && after[i].key == s.rows[i].key && after[i].name == name &&
                    after[i].stored == domains && after[i].config == config)
            && ((forall i :: 0 <= i < |s.rows| ==> s.rows[i].user != user && s.rows[i].key != newKey) ==>
                  after == s.rows + [Row(user, id, newKey, name, true, domains, config)])
  {
    WriteIsOnly(s.rows, user, FindUser(s.rows, user));
    FindUserIs(s.rows, user);
    FindKeyIs(s.rows, newKey);
    if FindUser(s.rows, user).Some? {
      UpdateAt(s.rows, FindUser(s.rows, user).value.(name := name, stored := domains, config := config, active := true));
    }
  }

  function ApplyAll(setup: Setup, s: State, ops: seq<Op>): State
    decreases |ops|
  {
    if ops == [] then s else ApplyAll(setup, Apply(setup, s, ops[0]), ops[1..])
  }

  lemma {:induction false} RunsAreCoherent(setup: Setup, s: State, ops: seq<Op>)
    requires Coherent(setup, s)
    ensures Coherent(setup, ApplyAll(setup, s, ops))
    decreases |ops|
  {
    if ops == [] {
    } else {
      ApplyKeepsCoherent(setup, s, ops[0]);
      RunsAreCoherent(setup, Apply(setup, s, ops[0]), ops[1..]);
    }
  }

  /** The cache is invisible: after any run of writes, loads and expiries from an empty
      cache, the handler replies to every request as it would without a cache. */
  lemma CacheIsTransparent(setup: Setup, rows: seq<Row>, ops: seq<Op>, key: string, domain: string)
    requires Unique(rows)
    ensures var s := ApplyAll(setup, State(rows, map[]), ops);
            Read(setup, s, key, domain).0 == Uncached(setup, s.rows, key, domain)
  {
    RunsAreCoherent(setup, State(rows, map[]), ops);
    ReadKeepsCoherent(setup, ApplyAll(setup, State(rows, map[]), ops), Trim(key, GO_SPACE), domain);
  }

  /** No entry survives under a key that was regenerated away. */
  lemma RegeneratedKeyIsGone(setup: Setup, s: State, user: string, newKey: string)
    requires Coherent(setup, s) && FindUser(s.rows, user).Some? && !KeyTaken(s.rows, user, newKey)
    requires newKey != FindUser(s.rows, user).value.key
    ensures var s' := Apply(setup, s, Regenerate(user, newKey));
            var oldKey := FindUser(s.rows, user).value.key;
            && oldKey !in s'.cache && newKey !in s'.cache
            && forall domain :: ReadAt(setup, s', oldKey, domain).0 == NotFound
  {
    RenamedKeyIsUnused(s.rows, user, newKey);
    RegenerateKeepsCoherent(setup, s, user, newKey);
  }

  lemma RenamedKeyIsUnused(rows: seq<Row>, user: string, newKey: string)
    requires Unique(rows) && FindUser(rows, user).Some? && newKey != FindUser(rows, user).value.key
    ensures FindKey(Update(rows, FindUser(rows, user).value.(key := newKey)), FindUser(rows, user).value.key).None?
  {
    var r := FindUser(rows, user).value;
    FindUserIs(rows, user);
    var rows' := Update(rows, r.(key := newKey));
    UpdateAt(rows, r.(key := newKey));
    forall i | 0 <= i < |rows'| ensures rows'[i].key != r.key {
      var j :| 0 <= j < |rows| && rows[j] == r;
    }
    FindKeyIs(rows', r.key);
  }

  /** Deleting a widget does not touch the cache: coherence survives exactly when the
      deleted row had no entry. */
  lemma DeleteIsCoherentIff(setup: Setup, s: State, user: string)
    requires Coherent(setup, s) && FindUser(s.rows, user).Some?
    ensures Coherent(setup, State(Without(s.rows, user), s.cache)) <==> FindUser(s.rows, user).value.key !in s.cache
  {
    var r := FindUser(s.rows, user).value;
    DeletedKeyIsUnused(s.rows, user);
    WithoutFacts(s.rows, user);
    forall k | k in s.cache && k != r.key ensures FindKey(Without(s.rows, user), k) == FindKey(s.rows, k) {
      WithoutLookup(s.rows, user, r, k);
    }
  }

  lemma DeletedKeyIsUnused(rows: seq<Row>, user: string)
    requires Unique(rows) && FindUser(rows, user).Some?
    ensures FindKey(Without(rows, user), FindUser(rows, user).value.key).None?
    ensures forall i :: 0 <= i < |rows| && rows[i].user == user ==> rows[i] == FindUser(rows, user).value
  {
    var r := FindUser(rows, user).value;
    FindUserIs(rows, user);
    WithoutFacts(rows, user);
    var k :| 0 <= k < |rows| && rows[k] == r;
    var rows' := Without(rows, user);
    forall i | 0 <= i < |rows'| ensures rows'[i].key != r.key {
      assert rows'[i] in rows';
      var j :| 0 <= j < |rows| && rows[j] == rows'[i];
    }
    FindKeyIs(rows', r.key);
  }

  lemma {:induction false} WithoutHas(rows: seq<Row>, user: string, r: Row)
    ensures r in Without(rows, user) <==> r in rows && r.user != user
  {
    if rows == [] {
    } else {
      WithoutHas(rows[1..], user, r);
      assert rows == [rows[0]] + rows[1..];
    }
  }

  lemma UniqueCons(r: Row, rest: seq<Row>)
    requires Unique(rest) && forall q :: q in rest ==> q.user != r.user && q.key != r.key
    ensures Unique([r] + rest)
  {
    forall i | 0 <= i < |rest| ensures rest[i] in rest {
    }
  }

  lemma {:induction false} WithoutIsUnique(rows: seq<Row>, user: string)
    requires Unique(rows)
    ensures Unique(Without(rows, user))
  {
    if rows == [] {
    } else {
      var rest := Without(rows[1..], user);
      WithoutIsUnique(rows[1..], user);
      forall q | q in rest ensures q.user != rows[0].user && q.key != rows[0].key {
        WithoutHas(rows[1..], user, q);
        var j :| 0 <= j < |rows[1..]| && rows[1..][j] == q;
        assert rows[j + 1] == q;
      }
      UniqueCons(rows[0], rest);
      assert [] + rest == rest;
    }
  }

  lemma WithoutFacts(rows: seq<Row>, user: string)
    requires Unique(rows)
    ensures Unique(Without(rows, user))
    ensures forall r :: r in Without(rows, user) <==> r in rows && r.user != user
  {
    WithoutIsUnique(rows, user);
    forall r ensures r in Without(rows, user) <==> r in rows && r.user != user { WithoutHas(rows, user, r); }
  }

  lemma {:induction false} WithoutLookup(rows: seq<Row>, user: string, r: Row, k: string)
    requires Unique(rows) && k != r.key
    requires forall i :: 0 <= i < |rows| && rows[i].user == user ==> rows[i] == r
    ensures FindKey(Without(rows, user), k) == FindKey(rows, k)
  {
    if rows == [] {
    } else {
      WithoutLookup(rows[1..], user, r, k);
      var rest := Without(rows[1..], user);
      assert [] + rest == rest;
      assert ([rows[0]] + rest)[1..] == rest;
    }
  }

  // ---- the handlers -----------------------------------------------------

  class Widgets {
    const setup: Setup
    var rows: seq<Row>
    var cache: map<string, Entry>

    constructor (setup: Setup)
      ensures this.setup == setup && Value() == State([], map[])
    {
      this.setup := setup;
      rows, cache := [], map[];
    }

    function Value(): State
      reads this
    {
      State(rows, cache)
    }

    method PublicWidgetConfig(key0: string, reqDomain: string) returns (reply: Reply)
      modifies this`cache
      ensures (reply, Value()) == Read(setup, old(Value()), key0, reqDomain)
      ensures Coherent(setup, old(Value())) ==> IsReply(setup, rows, Trim(key0, GO_SPACE), reqDomain, reply)
    {
      if Coherent(setup, Value()) { ReadIsReply(setup, Value(), key0, reqDomain); }
      var key := Trim(key0, GO_SPACE);
      if key == "" {
        return NotFound;
      }
      if key in cache {
        var cached := cache[key];
        var allowed := IsWidgetRequestAllowed(cached.allowedDomains, reqDomain);
        return if !allowed then Denied else Served(cached.response);
      }
      var row := FindKey(rows, key);
      if row.None? || !row.value.active {
        return NotFound;
      }
      var allowedDomains := setup.parse(row.value.stored);
      if setup.production && |allowedDomains| == 0 {
        return NotConfigured;
      }
      var allowed := IsWidgetRequestAllowed(allowedDomains, reqDomain);
      if !allowed {
        return Denied;
      }
      cache := cache[key := Entry(PayloadOf(row.value), row.value.id, allowedDomains)];
      return Served(PayloadOf(row.value));
    }

    method CreateWidget(user: string, id: nat, newKey: string, name: string, domains: seq<string>, config: Config)
      modifies this
      ensures Value() == Apply(setup, old(Value()), Create(user, id, newKey, name, domains, config))
    {
      var found := FindUser(rows, user);
      var persisted := newKey;
      if found.Some? {
        persisted := found.value.key;
        rows := Update(rows, found.value.(name := name, stored := domains, config := config, active := true));
      } else {
        if FindKey(rows, newKey).Some? {
          return;
        }
        rows := rows + [Row(user, id, newKey, name, true, domains, config)];
      }
      cache := cache - {persisted};
    }

    method UpdateWidget(user: string, name: Option<string>, domains: Option<seq<string>>, config: Config) returns (ok: bool)
      modifies this
      ensures ok == FindUser(old(rows), user).Some?
      ensures Value() == Apply(setup, old(Value()), Replace(user, name, domains, config))
    {
      var found := FindUser(rows, user);
      if found.None? {
        return false;
      }
      var r := found.value;
      rows := Update(rows, r.(name := if name.Some? then name.value else r.name, config := config,
                              stored := if domains.Some? then domains.value else r.stored));
      cache := cache - {r.key};
      return true;
    }

    method RegenerateWidget(user: string, newKey: string) returns (ok: bool)
      modifies this
      ensures ok <==> FindUser(old(rows), user).None? || !KeyTaken(old(rows), user, newKey)
      ensures Value() == Apply(setup, old(Value()), Regenerate(user, newKey))
    {
      var found := FindUser(rows, user);
      if found.Some? {
        if KeyTaken(rows, user, newKey) {
          return false;
        }
        rows := Update(rows, found.value.(key := newKey));
        cache := cache - {found.value.key};
      }
      cache := cache - {newKey};
      return true;
    }

    /** Persona, branding and navigation: merge a patch into the configuration. */
    method MergeConfig(user: string, patch: Config) returns (ok: bool)
      modifies this
      ensures ok == FindUser(old(rows), user).Some?
      ensures Value() == Apply(setup, old(Value()), Merge(user, patch))
    {
      var found := FindUser(rows, user);
      if found.None? {
        return false;
      }
      rows := Update(rows, found.value.(config := found.value.config + patch));
      cache := cache - {found.value.key};
      return true;
    }

    method DeleteWidget(user: string)
      modifies this`rows
      ensures Value() == State(Without(old(rows), user), old(cache))
    {
      rows := Without(rows, user);
    }
  }
}

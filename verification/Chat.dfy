/** The chat database as every statement of every handler sees it: each SQL statement is
    one atomic step, and statements of different handlers interleave freely. */
module Chat {
  import opened Options

  /** `missed` is history: the count updates that found this live conversation bound to
      another widget and so did nothing. */
  datatype Conv = Conv(owner: nat, widget: Option<nat>, deleted: bool, count: nat, missed: nat)

  datatype Message = Message(conv: nat, owner: nat)

  /** Conversations used, and the limit; no limit is the SQL null. */
  datatype Account = Account(used: int, limit: Option<int>)

  /** Where a handler stands: after its upsert, after its charge (signed-in chat only),
      or between its message insert and its count update. */
  datatype Phase = Opened | Charged | Counting

  /** A signed-in chat has no widget, a public one has the widget of its key. */
  datatype Handler = Handler(phase: Phase, user: nat, widget: Option<nat>, conv: nat)

  datatype World = World(
    convs: map<nat, Conv>, messages: seq<Message>, accounts: map<nat, Account>, gone: set<nat>, handlers: map<nat, Handler>)

  // ---- statements -------------------------------------------------------

  /** The WHERE clause shared by upsert, insert and count update. */
  predicate Matches(conv: Conv, user: nat, widget: Option<nat>) {
    conv.owner == user && !conv.deleted && (widget.Some? && conv.widget.Some? ==> conv.widget == widget)
  }

  /** A write of the widget id breaks the foreign key if the widget is deleted. */
  predicate Binds(convs: map<nat, Conv>, id: nat, widget: Option<nat>) {
    widget.Some? && (id in convs ==> convs[id].widget.None?)
  }

  /** Whether the upsert returns a row. */
  predicate UpsertReturns(convs: map<nat, Conv>, gone: set<nat>, id: nat, user: nat, widget: Option<nat>) {
    (id in convs ==> Matches(convs[id], user, widget)) && (Binds(convs, id, widget) ==> widget.value !in gone)
  }

  function Bound(conv: Conv, widget: Option<nat>): Conv {
    if conv.widget.None? then conv.(widget := widget) else conv
  }

  function Upserted(convs: map<nat, Conv>, id: nat, user: nat, widget: Option<nat>): map<nat, Conv> {
    convs[id := if id in convs then Bound(convs[id], widget) else Conv(user, widget, false, 0, 0)]
  }

  predicate MayCharge(accounts: map<nat, Account>, user: nat) {
    user in accounts && (accounts[user].limit.Some? ==> accounts[user].used < accounts[user].limit.value)
  }

  predicate Inserts(convs: map<nat, Conv>, h: Handler) {
    h.conv in convs && Matches(convs[h.conv], h.user, h.widget)
  }

  function Counted(convs: map<nat, Conv>, h: Handler): map<nat, Conv> {
    if h.conv !in convs then convs
    else if Matches(convs[h.conv], h.user, h.widget) then
      convs[h.conv := convs[h.conv].(count := convs[h.conv].count + 2)]
    else if convs[h.conv].deleted then convs
    else convs[h.conv := convs[h.conv].(missed := convs[h.conv].missed + 1)]
  }

  function Cleared(convs: map<nat, Conv>, user: nat, ids: set<nat>): map<nat, Conv> {
    map c | c in convs :: if c in ids && convs[c].owner == user then convs[c].(deleted := true) else convs[c]
  }

  function Unbound(convs: map<nat, Conv>, widget: nat): map<nat, Conv> {
    map c | c in convs :: if convs[c].widget == Some(widget) then convs[c].(widget := None) else convs[c]
  }

  // ---- steps ------------------------------------------------------------

  datatype Step =
    | Open(h: nat, user: nat, widget: Option<nat>, id: nat)
    | Charge(h: nat)
    | Insert(h: nat)
    | Count(h: nat)
    | ClearSession(id: nat, user: nat)
    | ClearUser(user: nat)
    | DeleteWidget(key: nat)
    | SetLimit(user: nat, limit: Option<int>)
    | ResetUsage(user: nat)

  predicate Enabled(w: World, s: Step) {
    match s
    case Open(h, _, _, _) => h !in w.handlers
    case Charge(h) => h in w.handlers && w.handlers[h].phase.Opened? && w.handlers[h].widget.None?
    case Insert(h) =>
      h in w.handlers && (if w.handlers[h].widget.None? then w.handlers[h].phase.Charged? else w.handlers[h].phase.Opened?)
    case Count(h) => h in w.handlers && w.handlers[h].phase.Counting?
    case ClearSession(_, _) => true
    case ClearUser(_) => true
    case DeleteWidget(_) => true
    case SetLimit(user, _) => user in w.accounts
    case ResetUsage(user) => user in w.accounts
  }

  function Next(w: World, s: Step): World
    requires Enabled(w, s)
  {
    match s
    case Open(h, user, widget, id) =>
      if UpsertReturns(w.convs, w.gone, id, user, widget) then
        w.(convs := Upserted(w.convs, id, user, widget), handlers := w.handlers[h := Handler(Opened, user, widget, id)])
      else w
    case Charge(h) =>
      var q := w.handlers[h];
      if MayCharge(w.accounts, q.user) then
        w.(accounts := w.accounts[q.user := w.accounts[q.user].(used := w.accounts[q.user].used + 1)],
           handlers := w.handlers[h := q.(phase := Charged)])
      else w.(handlers := w.handlers - {h})
    case Insert(h) =>
      var q := w.handlers[h];
      if Inserts(w.convs, q) then
        w.(messages := w.messages + [Message(q.conv, q.user), Message(q.conv, q.user)],
           handlers := w.handlers[h := q.(phase := Counting)])
      else w.(handlers := w.handlers - {h})
    case Count(h) => w.(convs := Counted(w.convs, w.handlers[h]), handlers := w.handlers - {h})
    case ClearSession(id, user) => w.(convs := Cleared(w.convs, user, {id}))
    case ClearUser(user) => w.(convs := Cleared(w.convs, user, w.convs.Keys))
    case DeleteWidget(key) => w.(convs := Unbound(w.convs, key), gone := w.gone + {key})
    case SetLimit(user, limit) => w.(accounts := w.accounts[user := w.accounts[user].(limit := limit)])
    case ResetUsage(user) => w.(accounts := w.accounts[user := w.accounts[user].(used := 0)])
  }

  ghost predicate IsRun(run: seq<World>, steps: seq<Step>) {
    && |run| == |steps| + 1
    && forall k :: 0 <= k < |steps| ==> Enabled(run[k], steps[k]) && run[k + 1] == Next(run[k], steps[k])
  }

  /** An empty database with some accounts. */
  ghost predicate Initial(w: World) {
    w.convs == map[] && w.messages == [] && w.gone == {} && w.handlers == map[]
  }

  // ---- the accounting invariant -----------------------------------------

  function Stored(messages: seq<Message>, conv: nat): nat {
    if messages == [] then 0
    else Stored(messages[..|messages| - 1], conv) + (if messages[|messages| - 1].conv == conv then 1 else 0)
  }

  /** The handlers between the insert and the count update of a conversation. */
  function Pending(handlers: map<nat, Handler>, conv: nat): set<nat> {
    set h | h in handlers && handlers[h].phase.Counting? && handlers[h].conv == conv
  }

  ghost predicate Balanced(w: World, c: nat)
    requires c in w.convs
  {
    && (!w.convs[c].deleted ==>
          w.convs[c].count + 2 * |Pending(w.handlers, c)| + 2 * w.convs[c].missed == Stored(w.messages, c))
    && (w.convs[c].missed > 0 ==> w.gone != {})
  }

  /** A public handler's conversation belongs to its widget as long as the widget exists. */
  ghost predicate HandlerOk(w: World, q: Handler) {
    && q.conv in w.convs && w.convs[q.conv].owner == q.user
    && (q.widget.Some? ==> w.convs[q.conv].widget == q.widget || q.widget.value in w.gone)
  }

  ghost predicate MessageOk(w: World, m: Message) {
    m.conv in w.convs && w.convs[m.conv].owner == m.owner
  }

  ghost predicate Inv(w: World) {
    && (forall c :: c in w.convs ==> Balanced(w, c))
    && (forall h :: h in w.handlers ==> HandlerOk(w, w.handlers[h]))
    && (forall m :: m in w.messages ==> MessageOk(w, m))
  }

  /** What any statement does to a conversation that exists. */
  ghost predicate Follows(before: Conv, after: Conv) {
    && after.owner == before.owner
    && (before.deleted ==> after.deleted && after.count == before.count)
  }

  lemma StoredTwo(messages: seq<Message>, m: Message, c: nat)
    ensures Stored(messages + [m, m], c) == Stored(messages, c) + (if m.conv == c then 2 else 0)
  {
    assert (messages + [m, m])[..|messages| + 1] == messages + [m];
    assert (messages + [m])[..|messages|] == messages;
  }

  lemma {:induction false} StoredNone(messages: seq<Message>, c: nat)
    requires forall m :: m in messages ==> m.conv != c
    ensures Stored(messages, c) == 0
  {
    if messages == [] {
    } else {
      StoredNone(messages[..|messages| - 1], c);
    }
  }

  lemma OpenKeepsInv(w: World, s: Step)
    requires Inv(w) && Enabled(w, s) && s.Open?
    ensures Inv(Next(w, s))
  {
    var w' := Next(w, s);
    if w' != w {
      forall c | c in w'.convs ensures Balanced(w', c) {
        assert Pending(w'.handlers, c) == Pending(w.handlers, c);
        if c in w.convs {
          assert Balanced(w, c);
        } else {
          assert Pending(w.handlers, c) == {} by {
            forall h | h in w.handlers ensures w.handlers[h].conv != c { assert HandlerOk(w, w.handlers[h]); }
          }
          forall m | m in w.messages ensures m.conv != c { assert MessageOk(w, m); }
          StoredNone(w.messages, c);
        }
      }
      forall h | h in w'.handlers ensures HandlerOk(w', w'.handlers[h]) {
        if h != s.h { assert HandlerOk(w, w.handlers[h]); }
      }
      forall m | m in w'.messages ensures MessageOk(w', m) { assert MessageOk(w, m); }
    }
  }

  lemma ChargeKeepsInv(w: World, s: Step)
    requires Inv(w) && Enabled(w, s) && s.Charge?
    ensures Inv(Next(w, s))
  {
    var w' := Next(w, s);
    forall c | c in w'.convs ensures Balanced(w', c) {
      assert Pending(w'.handlers, c) == Pending(w.handlers, c);
      assert Balanced(w, c);
    }
    forall h | h in w'.handlers ensures HandlerOk(w', w'.handlers[h]) { assert HandlerOk(w, w.handlers[h]); }
    forall m | m in w'.messages ensures MessageOk(w', m) { assert MessageOk(w, m); }
  }

  lemma PendingWith(handlers: map<nat, Handler>, h: nat, q: Handler, c: nat)
    requires h in handlers && !handlers[h].phase.Counting? && q.phase.Counting?
    ensures |Pending(handlers[h := q], c)| == |Pending(handlers, c)| + (if q.conv == c then 1 else 0)
  {
    var before := Pending(handlers, c);
    assert Pending(handlers[h := q], c) == if q.conv == c then before + {h} else before;
  }

  lemma InsertBalances(w: World, s: Step, c: nat)
    requires Enabled(w, s) && s.Insert? && c in w.convs && Balanced(w, c)
    ensures Balanced(Next(w, s), c)
  {
    var w', q := Next(w, s), w.handlers[s.h];
    if Inserts(w.convs, q) {
      StoredTwo(w.messages, Message(q.conv, q.user), c);
      PendingWith(w.handlers, s.h, q.(phase := Counting), c);
    } else {
      assert Pending(w'.handlers, c) == Pending(w.handlers, c);
    }
  }

  lemma InsertKeepsInv(w: World, s: Step)
    requires Inv(w) && Enabled(w, s) && s.Insert?
    ensures Inv(Next(w, s))
  {
    var w' := Next(w, s);
    var q := w.handlers[s.h];
    forall c | c in w'.convs ensures Balanced(w', c) {
      assert Balanced(w, c);
      InsertBalances(w, s, c);
    }
    forall h | h in w'.handlers ensures HandlerOk(w', w'.handlers[h]) { assert HandlerOk(w, w.handlers[h]); }
    forall m | m in w'.messages ensures MessageOk(w', m) {
      if m in w.messages { assert MessageOk(w, m); }
    }
  }

  lemma PendingWithout(handlers: map<nat, Handler>, h: nat, c: nat)
    requires h in handlers && handlers[h].phase.Counting?
    ensures |Pending(handlers, c)| == |Pending(handlers - {h}, c)| + (if handlers[h].conv == c then 1 else 0)
  {
    var rest := Pending(handlers - {h}, c);
    assert Pending(handlers, c) == if handlers[h].conv == c then rest + {h} else rest;
  }

  lemma CountBalances(w: World, s: Step, c: nat)
    requires Enabled(w, s) && s.Count? && c in w.convs
    requires Balanced(w, c) && HandlerOk(w, w.handlers[s.h])
    ensures c in Next(w, s).convs && Balanced(Next(w, s), c)
  {
    PendingWithout(w.handlers, s.h, c);
  }

  lemma CountKeepsInv(w: World, s: Step)
    requires Inv(w) && Enabled(w, s) && s.Count?
    ensures Inv(Next(w, s))
  {
    var w' := Next(w, s);
    assert HandlerOk(w, w.handlers[s.h]);
    forall c | c in w'.convs ensures Balanced(w', c) {
      assert Balanced(w, c);
      CountBalances(w, s, c);
    }
    forall h | h in w'.handlers ensures HandlerOk(w', w'.handlers[h]) { assert HandlerOk(w, w.handlers[h]); }
    forall m | m in w'.messages ensures MessageOk(w', m) { assert MessageOk(w, m); }
  }

  lemma OtherKeepsInv(w: World, s: Step)
    requires Inv(w) && Enabled(w, s) && !s.Open? && !s.Charge? && !s.Insert? && !s.Count?
    ensures Inv(Next(w, s))
  {
    var w' := Next(w, s);
    forall c | c in w'.convs ensures Balanced(w', c) { assert Balanced(w, c); }
    forall h | h in w'.handlers ensures HandlerOk(w', w'.handlers[h]) { assert HandlerOk(w, w.handlers[h]); }
    forall m | m in w'.messages ensures MessageOk(w', m) { assert MessageOk(w, m); }
  }

  lemma NextKeepsInv(w: World, s: Step)
    requires Inv(w) && Enabled(w, s)
    ensures Inv(Next(w, s))
  {
    match s
    case Open(_, _, _, _) => OpenKeepsInv(w, s);
    case Charge(_) => ChargeKeepsInv(w, s);
    case Insert(_) => InsertKeepsInv(w, s);
    case Count(_) => CountKeepsInv(w, s);
    case _ => OtherKeepsInv(w, s);
  }

  lemma {:induction false} RunKeepsInv(run: seq<World>, steps: seq<Step>, n: nat)
    requires IsRun(run, steps) && Initial(run[0]) && n < |run|
    ensures Inv(run[n])
  {
    if n == 0 {
    } else {
      RunKeepsInv(run, steps, n - 1);
      NextKeepsInv(run[n - 1], steps[n - 1]);
    }
  }

  // ---- what holds at every moment of every run --------------------------

  /** The count of a live conversation trails its stored messages by two for every
      request between insert and count update, exactly when no count update was missed;
      and none is missed while no widget has been deleted. */
  lemma AccountingIsExactIff(run: seq<World>, steps: seq<Step>, n: nat, c: nat)
    requires IsRun(run, steps) && Initial(run[0]) && n < |run|
    requires c in run[n].convs && !run[n].convs[c].deleted
    ensures var w := run[n];
            && (w.convs[c].count + 2 * |Pending(w.handlers, c)| == Stored(w.messages, c) <==> w.convs[c].missed == 0)
            && w.convs[c].count + 2 * |Pending(w.handlers, c)| <= Stored(w.messages, c)
            && (w.gone == {} ==> w.convs[c].missed == 0)
  {
    RunKeepsInv(run, steps, n);
    assert Balanced(run[n], c);
  }

  /** A count update passes over a live conversation exactly when a widget other than the
      request's is bound to it by then; the request's own widget has then been deleted. */
  lemma CountIsMissedIff(run: seq<World>, steps: seq<Step>, n: nat, h: nat)
    requires IsRun(run, steps) && Initial(run[0]) && n < |run| && Enabled(run[n], Count(h))
    requires var c := run[n].handlers[h].conv; c in run[n].convs ==> !run[n].convs[c].deleted
    ensures var w, q := run[n], run[n].handlers[h];
            && q.conv in w.convs && q.conv in Next(w, Count(h)).convs
            && (Next(w, Count(h)).convs[q.conv].count == w.convs[q.conv].count <==>
                q.widget.Some? && w.convs[q.conv].widget.Some? && w.convs[q.conv].widget != q.widget)
            && (Next(w, Count(h)).convs[q.conv].count == w.convs[q.conv].count ==> q.widget.value in w.gone)
  {
    RunKeepsInv(run, steps, n);
    assert HandlerOk(run[n], run[n].handlers[h]);
  }

  /** Every stored message belongs to the owner of its conversation. */
  lemma MessagesBelongToOwner(run: seq<World>, steps: seq<Step>, n: nat, k: nat)
    requires IsRun(run, steps) && Initial(run[0]) && n < |run| && k < |run[n].messages|
    ensures var m := run[n].messages[k]; m.conv in run[n].convs && run[n].convs[m.conv].owner == m.owner
  {
    RunKeepsInv(run, steps, n);
    assert MessageOk(run[n], run[n].messages[k]);
  }

  lemma StepFollows(w: World, s: Step, c: nat)
    requires Enabled(w, s) && c in w.convs
    ensures c in Next(w, s).convs && Follows(w.convs[c], Next(w, s).convs[c])
    ensures w.convs[c].deleted ==> Stored(Next(w, s).messages, c) == Stored(w.messages, c)
  {
    if s.Insert? {
      var q := w.handlers[s.h];
      StoredTwo(w.messages, Message(q.conv, q.user), c);
    }
  }

  /** Owners never change; a deleted conversation never revives, is never counted again
      and never gains a message. */
  lemma {:induction false} ConversationsOnlyClose(run: seq<World>, steps: seq<Step>, i: nat, j: nat, c: nat)
    requires IsRun(run, steps) && i <= j < |run| && c in run[i].convs
    ensures c in run[j].convs && Follows(run[i].convs[c], run[j].convs[c])
    ensures run[i].convs[c].deleted ==> Stored(run[j].messages, c) == Stored(run[i].messages, c)
  {
    if i == j {
    } else {
      ConversationsOnlyClose(run, steps, i, j - 1, c);
      StepFollows(run[j - 1], steps[j - 1], c);
    }
  }

  /** No step moves the usage above the limit in force, and only a charge raises it. */
  lemma UsageStaysWithinLimit(w: World, s: Step, user: nat)
    requires Enabled(w, s) && user in w.accounts && 0 <= w.accounts[user].used
    ensures user in Next(w, s).accounts
    ensures var a, b := w.accounts[user], Next(w, s).accounts[user];
            b.used > a.used ==>
              && s.Charge? && b.limit == a.limit && b.used == a.used + 1
              && (b.limit.Some? ==> b.used <= b.limit.value)
  {
  }

  /** Over a run without a change of the limit, usage that starts within it stays within it. */
  lemma {:induction false} RunStaysWithinLimit(run: seq<World>, steps: seq<Step>, n: nat, user: nat, limit: int)
    requires IsRun(run, steps) && n < |run|
    requires user in run[0].accounts && run[0].accounts[user].limit == Some(limit)
    requires 0 <= run[0].accounts[user].used <= limit
    requires forall k :: 0 <= k < n ==> !(steps[k].SetLimit? && steps[k].user == user)
    ensures user in run[n].accounts && run[n].accounts[user].limit == Some(limit)
    ensures 0 <= run[n].accounts[user].used <= limit
  {
    if n == 0 {
    } else {
      RunStaysWithinLimit(run, steps, n - 1, user, limit);
    }
  }

  // ---- who gets in, and who is closed out -------------------------------

  /** A request gets a conversation exactly if it is new, or the user's own, not deleted and
      not bound to another widget, and the widget it has to be bound to still exists. What
      it gets is the conversation as it was, or an empty one, bound to the widget if it was
      bound to none. */
  lemma OpenIff(w: World, h: nat, user: nat, widget: Option<nat>, id: nat)
    requires h !in w.handlers
    ensures var after := Next(w, Open(h, user, widget, id));
            && (h in after.handlers <==>
                  && (id in w.convs ==>
                        && w.convs[id].owner == user && !w.convs[id].deleted
                        && (widget.None? || w.convs[id].widget.None? || w.convs[id].widget == widget))
                  && (widget.Some? && (id !in w.convs || w.convs[id].widget.None?) ==> widget.value !in w.gone))
            && (h !in after.handlers ==> after == w)
            && (h in after.handlers ==>
                  && id in after.convs && after.convs - {id} == w.convs - {id}
                  && after.convs[id].owner == user && !after.convs[id].deleted
                  && after.convs[id].count == (if id in w.convs then w.convs[id].count else 0)
                  && after.convs[id].widget ==
                     (if id in w.convs && w.convs[id].widget.Some? then w.convs[id].widget else widget)
                  && after.messages == w.messages && after.accounts == w.accounts)
  {
  }

  /** A chat goes on to the model and is charged once exactly if the user has no limit or has
      used less than it; otherwise it ends and nothing is charged. */
  lemma ChargeIff(w: World, h: nat)
    requires Enabled(w, Charge(h))
    ensures var user, after := w.handlers[h].user, Next(w, Charge(h));
            && (h in after.handlers <==>
                  user in w.accounts && (w.accounts[user].limit.None? || w.accounts[user].used < w.accounts[user].limit.value))
            && (h in after.handlers ==>
                  user in after.accounts && after.accounts[user].used == w.accounts[user].used + 1)
            && (h !in after.handlers ==> after.accounts == w.accounts)
            && after.accounts.Keys == w.accounts.Keys
            && (forall u :: u in w.accounts && u != user ==> after.accounts[u] == w.accounts[u])
            && after.convs == w.convs && after.messages == w.messages
  {
  }

  /** Both messages of a request are stored exactly if its conversation is by then still the
      user's, not deleted and not bound to another widget. */
  lemma InsertIff(w: World, h: nat)
    requires Enabled(w, Insert(h))
    ensures var q, after := w.handlers[h], Next(w, Insert(h));
            && (h in after.handlers <==>
                  && q.conv in w.convs && w.convs[q.conv].owner == q.user && !w.convs[q.conv].deleted
                  && (q.widget.None? || w.convs[q.conv].widget.None? || w.convs[q.conv].widget == q.widget))
            && after.messages == w.messages + (if h in after.handlers then [Message(q.conv, q.user), Message(q.conv, q.user)] else [])
            && after.convs == w.convs && after.accounts == w.accounts
  {
  }

  /** Nothing but deleted flags changes, and those are only set. */
  ghost predicate OnlyCloses(before: World, after: World) {
    && after.convs.Keys == before.convs.Keys
    && (forall c :: c in before.convs ==>
          after.convs[c] == before.convs[c] || after.convs[c] == before.convs[c].(deleted := true))
    && after == before.(convs := after.convs)
  }

  /** Clearing a session closes that conversation if it is the user's, and no other. */
  lemma ClearSessionIff(w: World, id: nat, user: nat, c: nat)
    requires c in w.convs
    ensures var after := Next(w, ClearSession(id, user));
            && OnlyCloses(w, after)
            && (after.convs[c].deleted <==> w.convs[c].deleted || (c == id && w.convs[c].owner == user))
  {
  }

  /** Clearing everything closes all conversations of the user and nobody else's. */
  lemma ClearUserIff(w: World, user: nat, c: nat)
    requires c in w.convs
    ensures var after := Next(w, ClearUser(user));
            && OnlyCloses(w, after)
            && (after.convs[c].deleted <==> w.convs[c].deleted || w.convs[c].owner == user)
  {
  }

  /** A conversation that its user has cleared is closed for good: over any run it gains no
      message and no count, and no request of anybody gets it again. */
  lemma ClearedForGood(run: seq<World>, steps: seq<Step>, i: nat, j: nat, user: nat, c: nat)
    requires IsRun(run, steps) && i < j < |run| && c in run[i].convs && run[i].convs[c].owner == user
    requires steps[i] == ClearSession(c, user) || steps[i] == ClearUser(user)
    ensures c in run[j].convs && run[j].convs[c].deleted && run[j].convs[c].count == run[i].convs[c].count
    ensures Stored(run[j].messages, c) == Stored(run[i].messages, c)
    ensures forall h, u, widget :: h !in run[j].handlers ==> h !in Next(run[j], Open(h, u, widget, c)).handlers
  {
    assert run[i + 1] == Next(run[i], steps[i]);
    ClearSessionIff(run[i], c, user, c);
    ClearUserIff(run[i], user, c);
    ConversationsOnlyClose(run, steps, i + 1, j, c);
    forall h, u, widget | h !in run[j].handlers ensures h !in Next(run[j], Open(h, u, widget, c)).handlers {
      OpenIff(run[j], h, u, widget, c);
    }
  }

  /** Deleting a widget unbinds its conversations and touches nothing else of any. */
  lemma DeleteWidgetUnbinds(w: World, key: nat, c: nat)
    requires c in w.convs
    ensures var after := Next(w, DeleteWidget(key));
            && after.convs.Keys == w.convs.Keys && after.messages == w.messages && after.accounts == w.accounts
            && after.convs[c] == w.convs[c].(widget := after.convs[c].widget)
            && after.convs[c].widget == (if w.convs[c].widget == Some(key) then None else w.convs[c].widget)
            && after.gone == w.gone + {key}
  {
  }

  // ---- a missed count update --------------------------------------------

  lemma Extend(run: seq<World>, steps: seq<Step>, s: Step, w: World) returns (run': seq<World>, steps': seq<Step>)
    requires IsRun(run, steps) && Enabled(run[|steps|], s) && w == Next(run[|steps|], s)
    ensures IsRun(run', steps') && run'[0] == run[0] && run'[|steps'|] == w
  {
    run', steps' := run + [w], steps + [s];
  }

  /** A public request between its insert and its count update. */
  lemma InsertedButNotCounted() returns (run: seq<World>, steps: seq<Step>)
    ensures IsRun(run, steps) && Initial(run[0])
    ensures run[|steps|] == World(map[0 := Conv(0, Some(1), false, 0, 0)], [Message(0, 0), Message(0, 0)], map[], {},
                                  map[1 := Handler(Counting, 0, Some(1), 0)])
  {
    var w0 := World(map[], [], map[], {}, map[]);
    var w1 := World(map[0 := Conv(0, Some(1), false, 0, 0)], [], map[], {}, map[1 := Handler(Opened, 0, Some(1), 0)]);
    var w2 := w1.(messages := [Message(0, 0), Message(0, 0)], handlers := map[1 := Handler(Counting, 0, Some(1), 0)]);
    run, steps := Extend([w0], [], Open(1, 0, Some(1), 0), w1);
    assert [] + [Message(0, 0), Message(0, 0)] == [Message(0, 0), Message(0, 0)];
    run, steps := Extend(run, steps, Insert(1), w2);
  }

  /** Deleting a widget while its request is between insert and count update, and
      answering another widget of the owner in the same conversation, loses the count. */
  lemma DeletedWidgetLosesCount() returns (run: seq<World>, steps: seq<Step>)
    ensures IsRun(run, steps) && Initial(run[0])
    ensures var w := run[|steps|];
            && 0 in w.convs && !w.convs[0].deleted && w.convs[0].count == 0
            && Pending(w.handlers, 0) == {} && Stored(w.messages, 0) == 2
  {
    run, steps := InsertedButNotCounted();
    var w2 := run[|steps|];
    var first, second := Handler(Counting, 0, Some(1), 0), Handler(Opened, 0, Some(2), 0);
    var w3 := w2.(convs := map[0 := Conv(0, None, false, 0, 0)], gone := {1});
    run, steps := Extend(run, steps, DeleteWidget(1), w3);
    var w4 := w3.(convs := map[0 := Conv(0, Some(2), false, 0, 0)], handlers := map[1 := first, 2 := second]);
    run, steps := Extend(run, steps, Open(2, 0, Some(2), 0), w4);
    var w5 := w4.(convs := map[0 := Conv(0, Some(2), false, 0, 1)], handlers := map[2 := second]);
    run, steps := Extend(run, steps, Count(1), w5);
    assert w2.messages == [] + [Message(0, 0), Message(0, 0)];
    StoredTwo([], Message(0, 0), 0);
  }

  // ---- the handlers as written ------------------------------------------

  datatype Reply = Answered(id: nat) | LimitReached | NotFound | BrokenReference

  class Database {
    var convs: map<nat, Conv>
    var messages: seq<Message>
    var accounts: map<nat, Account>
    var gone: set<nat>

    /** INSERT without a session id, INSERT ... ON CONFLICT DO UPDATE with one. */
    method UpsertConversation(sessionId: Option<nat>, newId: nat, user: nat, widget: Option<nat>) returns (reply: Reply)
      requires sessionId.None? ==> newId !in convs
      modifies this`convs
      ensures var id := if sessionId.Some? then sessionId.value else newId;
              && (reply == Answered(id) <==> UpsertReturns(old(convs), gone, id, user, widget))
              && (reply.Answered? ==> reply.id == id && convs == Upserted(old(convs), id, user, widget))
              && (!reply.Answered? ==> convs == old(convs))
              && (reply == NotFound <==> id in old(convs) && !Matches(old(convs)[id], user, widget))
              && reply != LimitReached
    {
      var id := if sessionId.Some? then sessionId.value else newId;
      if id !in convs {
        if widget.Some? && widget.value in gone {
          return BrokenReference;
        }
        convs := convs[id := Conv(user, widget, false, 0, 0)];
        return Answered(id);
      }
      var conv := convs[id];
      if conv.owner != user || conv.deleted || (widget.Some? && conv.widget.Some? && conv.widget != widget) {
        return NotFound;
      }
      if conv.widget.None? {
        if widget.Some? && widget.value in gone {
          return BrokenReference;
        }
        convs := convs[id := conv.(widget := widget)];
      }
      return Answered(id);
    }

    method ChargeConversation(user: nat) returns (charged: bool)
      modifies this`accounts
      ensures charged <==> MayCharge(old(accounts), user)
      ensures accounts == if charged then old(accounts)[user := old(accounts)[user].(used := old(accounts)[user].used + 1)]
                          else old(accounts)
    {
      if user !in accounts {
        return false;
      }
      var account := accounts[user];
      if account.limit.Some? && account.used >= account.limit.value {
        return false;
      }
      accounts := accounts[user := account.(used := account.used + 1)];
      return true;
    }

    method InsertMessages(q: Handler) returns (rows: nat)
      modifies this`messages
      ensures rows == if Inserts(convs, q) then 2 else 0
      ensures messages == old(messages) + if rows == 2 then [Message(q.conv, q.user), Message(q.conv, q.user)] else []
    {
      rows := 0;
      if q.conv in convs && Matches(convs[q.conv], q.user, q.widget) {
        messages := messages + [Message(q.conv, q.user), Message(q.conv, q.user)];
        rows := 2;
      }
    }

    method CountMessages(q: Handler)
      modifies this`convs
      ensures convs == Counted(old(convs), q)
    {
      if q.conv in convs {
        var conv := convs[q.conv];
        if Matches(conv, q.user, q.widget) {
          convs := convs[q.conv := conv.(count := conv.count + 2)];
        } else if !conv.deleted {
          convs := convs[q.conv := conv.(missed := conv.missed + 1)];
        }
      }
    }

    method ClearChatSession(id: nat, user: nat)
      modifies this`convs
      ensures convs == Cleared(old(convs), user, {id})
    {
      if id in convs && convs[id].owner == user {
        convs := convs[id := convs[id].(deleted := true)];
      }
    }

    method ClearUserSessions(user: nat)
      modifies this`convs
      ensures convs == Cleared(old(convs), user, old(convs).Keys)
    {
      var left := convs.Keys;
      ghost var before, done := convs, {};
      while left != {}
        invariant left !! done && left + done == before.Keys == convs.Keys
        invariant convs == Cleared(before, user, done)
      {
        var id :| id in left;
        left := left - {id};
        done := done + {id};
        if convs[id].owner == user {
          convs := convs[id := convs[id].(deleted := true)];
        }
      }
    }

    /** A signed-in chat that nothing interrupts: it either answers, with one charge, two
        messages and a count two higher; or stops at the limit with the conversation
        opened but nothing stored or charged; or changes nothing. */
    method Chat(user: nat, sessionId: Option<nat>, newId: nat) returns (reply: Reply)
      requires sessionId.None? ==> newId !in convs
      modifies this`convs, this`messages, this`accounts
      ensures var id := if sessionId.Some? then sessionId.value else newId;
              && (reply == NotFound <==> id in old(convs) && !Matches(old(convs)[id], user, None))
              && (reply == LimitReached <==> reply != NotFound && !MayCharge(old(accounts), user))
              && (reply == NotFound || reply == LimitReached || reply == Answered(id))
              && (reply == NotFound ==> convs == old(convs))
              && (reply == LimitReached ==> convs == Upserted(old(convs), id, user, None))
              && (reply == Answered(id) ==>
                    && id in convs && convs[id].owner == user && !convs[id].deleted
                    && convs[id].count == 2 + (if id in old(convs) then old(convs)[id].count else 0)
                    && convs - {id} == old(convs) - {id}
                    && user in accounts && user in old(accounts) && accounts - {user} == old(accounts) - {user}
                    && accounts[user].used == old(accounts)[user].used + 1
                    && messages == old(messages) + [Message(id, user), Message(id, user)])
              && (!reply.Answered? ==> messages == old(messages) && accounts == old(accounts))
    {
      reply := UpsertConversation(sessionId, newId, user, None);
      if reply == NotFound {
        return;
      }
      var id := reply.id;
      var charged := ChargeConversation(user);
      if !charged {
        return LimitReached;
      }
      var rows := InsertMessages(Handler(Charged, user, None, id));
      if rows != 2 {
        return NotFound;
      }
      CountMessages(Handler(Counting, user, None, id));
      return Answered(id);
    }

    /** A public request that nothing interrupts: no charge, and the conversation is
        bound to the widget from then on. */
    method PublicWebhook(owner: nat, widget: nat, sessionId: Option<nat>, newId: nat) returns (reply: Reply)
      requires sessionId.None? ==> newId !in convs
      modifies this`convs, this`messages
      ensures var id := if sessionId.Some? then sessionId.value else newId;
              && (reply == Answered(id) <==> UpsertReturns(old(convs), gone, id, owner, Some(widget)))
              && (reply == NotFound <==> id in old(convs) && !Matches(old(convs)[id], owner, Some(widget)))
              && (reply == Answered(id) ==>
                    && id in convs && convs[id].owner == owner && !convs[id].deleted && convs[id].widget == Some(widget)
                    && convs[id].count == 2 + (if id in old(convs) then old(convs)[id].count else 0)
                    && convs - {id} == old(convs) - {id}
                    && messages == old(messages) + [Message(id, owner), Message(id, owner)])
              && (reply != Answered(id) ==> messages == old(messages) && convs == old(convs))
    {
      reply := UpsertConversation(sessionId, newId, owner, Some(widget));
      if !reply.Answered? {
        return;
      }
      var id := reply.id;
      var rows := InsertMessages(Handler(Opened, owner, Some(widget), id));
      if rows != 2 {
        return NotFound;
      }
      CountMessages(Handler(Counting, owner, Some(widget), id));
      return Answered(id);
    }
  }
}

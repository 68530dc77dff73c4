/**
  The table that maps gateway identifiers to upstream URLs.

  A row is unique by its gateway identifier and by (order, upstream URL); writes are
  INSERT OR IGNORE, so a request that wants the identifier of a URL looks it up, inserts
  a new one if there is none, and reads again.  Any number of requests do so at once,
  interleaved with new orders that write their finalize and authorization rows one by one,
  and with order polls, which look finalize and certificate URLs up by the URL alone.
*/
module ResourceMap {
  import opened Paths
  import opened Wrappers

  type GatewayId = string
  type OrderId = string
  type Url = string
  type JobId = nat

  datatype Kind = Authz | Challenge | Finalize | Cert

  datatype Resource = Resource(kind: Kind, order: OrderId, url: Url)

  /** Keyed by the primary key. */
  type Table = map<GatewayId, Resource>

  /** The identifier leads back to the URL and the order. */
  predicate Resolves(t: Table, id: GatewayId, order: OrderId, url: Url) {
    id in t && t[id].order == order && t[id].url == url
  }

  predicate HasRow(t: Table, order: OrderId, url: Url) {
    exists id :: id in t && Resolves(t, id, order, url)
  }

  function InsertOrIgnore(t: Table, id: GatewayId, r: Resource): Table {
    if id in t || HasRow(t, r.order, r.url) then t else t[id := r]
  }

  ghost predicate Unique(t: Table) {
    forall g, h :: g in t && h in t && t[g].order == t[h].order && t[g].url == t[h].url ==> g == h
  }

  function AuthzListing(t: Table, order: OrderId): set<GatewayId> {
    set id | id in t && t[id].order == order && t[id].kind == Authz
  }

  // ---------- the machine ----------

  /** An order poll: the URLs the upstream reports, and the identifiers found for them so far. */
  datatype Poll = Poll(
    order: OrderId, finalize: Url, certificate: Option<Url>,
    finalizeId: Option<GatewayId>, certId: Option<GatewayId>)

  datatype Phase = LookFinalize | LookCert | InsertCert | RereadCert | ListAuthz

  /** `urls` holds an order's finalize URL first, then its authorization URLs; `ids` those written. */
  datatype Job =
    | Polling(phase: Phase, poll: Poll)
    | Looking(order: OrderId, url: Url, kind: Kind)
    | Missing(order: OrderId, url: Url, kind: Kind)
    | Inserted(order: OrderId, url: Url, kind: Kind)
    | Writing(order: OrderId, urls: seq<Url>, ids: seq<GatewayId>)

  /** A new-order response: `ids[k]` stands for `urls[k]`. */
  datatype Reply = Reply(urls: seq<Url>, ids: seq<GatewayId>)

  datatype Answer = Answer(order: OrderId, url: Url, id: GatewayId)

  /** A poll's response; without its authorizations if they could not be listed. */
  datatype PollAnswer = PollAnswer(poll: Poll, authz: Option<set<GatewayId>>)

  datatype State = State(
    table: Table,
    orders: set<OrderId>,
    published: map<OrderId, Reply>,
    jobs: map<JobId, Job>,
    answers: seq<Answer>,
    polls: seq<PollAnswer>,
    given: set<(OrderId, Url)>)  // every URL the upstream ever gave for an order, in whatever role

  datatype Action =
    | StartOrder(j: JobId, order: OrderId, urls: seq<Url>)
    | SaveNext(j: JobId, id: GatewayId)     // a fresh UUID
    | Respond(j: JobId)
    | Seek(j: JobId, order: OrderId, url: Url, kind: Kind)
    | Look(j: JobId)
    | Insert(j: JobId, id: GatewayId)       // any UUID, even one in use
    | Reread(j: JobId)
    | StartPoll(j: JobId, order: OrderId, finalize: Url, certificate: Option<Url>)
    | FindFinalize(j: JobId, pick: Option<GatewayId>)
    | FindCert(j: JobId, pick: Option<GatewayId>)    // None: no row, or an error, which is ignored
    | SaveCert(j: JobId, id: GatewayId)
    | RefindCert(j: JobId, pick: Option<GatewayId>)
    | List(j: JobId, listed: bool)
    | Abort(j: JobId)

  function KindAt(k: nat): Kind {
    if k == 0 then Finalize else Authz
  }

  ghost predicate Init(s: State) {
    s == State(map[], {}, map[], map[], [], [], {})
  }

  /** What a lookup by URL alone may return: any row with the URL. */
  predicate HasUrl(t: Table, id: GatewayId, url: Url) {
    id in t && t[id].url == url
  }

  ghost predicate FoundByUrl(t: Table, url: Url, pick: Option<GatewayId>) {
    if pick.Some? then HasUrl(t, pick.value, url) else forall id :: !HasUrl(t, id, url)
  }

  ghost predicate InPhase(s: State, j: JobId, phase: Phase) {
    j in s.jobs && s.jobs[j].Polling? && s.jobs[j].phase == phase && (phase.LookCert? || phase.InsertCert? || phase.RereadCert? ==>
      s.jobs[j].poll.certificate.Some?)
  }

  ghost predicate Enabled(s: State, a: Action) {
    match a
    case StartOrder(j, o, urls) => j !in s.jobs && o !in s.orders && |urls| > 0
    case SaveNext(j, id) =>
      j in s.jobs && s.jobs[j].Writing? && |s.jobs[j].ids| < |s.jobs[j].urls| && id !in s.table
    case Respond(j) => j in s.jobs && s.jobs[j].Writing? && |s.jobs[j].ids| == |s.jobs[j].urls|
    case Seek(j, o, _, kind) => j !in s.jobs && o in s.published && (kind == Challenge || kind == Cert)
    case Look(j) => j in s.jobs && s.jobs[j].Looking?
    case Insert(j, _) => j in s.jobs && s.jobs[j].Missing?
    case Reread(j) => j in s.jobs && s.jobs[j].Inserted?
    case StartPoll(j, o, _, _) => j !in s.jobs && o in s.published
    case FindFinalize(j, pick) => InPhase(s, j, LookFinalize) && FoundByUrl(s.table, s.jobs[j].poll.finalize, pick)
    case FindCert(j, pick) =>
      InPhase(s, j, LookCert) && (pick.Some? ==> HasUrl(s.table, pick.value, s.jobs[j].poll.certificate.value))
    case SaveCert(j, _) => InPhase(s, j, InsertCert)
    case RefindCert(j, pick) =>
      InPhase(s, j, RereadCert) && (pick.Some? ==> HasUrl(s.table, pick.value, s.jobs[j].poll.certificate.value))
    case List(j, _) => InPhase(s, j, ListAuthz)
    case Abort(j) => j in s.jobs
  }

  /** Ends a job with the identifier the table holds, or with nothing. */
  ghost function Conclude(s: State, j: JobId, order: OrderId, url: Url): State {
    var s' := s.(jobs := s.jobs - {j});
    if HasRow(s.table, order, url) then
      var id :| Resolves(s.table, id, order, url);
      s'.(answers := s.answers + [Answer(order, url, id)])
    else s'
  }

  ghost function ToPhase(s: State, j: JobId, phase: Phase, poll: Poll): State {
    s.(jobs := s.jobs[j := Polling(phase, poll)])
  }

  ghost function Apply(s: State, a: Action): State
    requires Enabled(s, a)
  {
    match a
    case StartOrder(j, o, urls) =>
      s.(orders := s.orders + {o}, jobs := s.jobs[j := Writing(o, urls, [])], given := s.given + set u | u in urls :: (o, u))
    case SaveNext(j, id) =>
      var job := s.jobs[j];
      var k := |job.ids|;
      s.(table := InsertOrIgnore(s.table, id, Resource(KindAt(k), job.order, job.urls[k])),
         jobs := s.jobs[j := job.(ids := job.ids + [id])])
    case Respond(j) =>
      var job := s.jobs[j];
      s.(published := s.published[job.order := Reply(job.urls, job.ids)], jobs := s.jobs - {j})
    case Seek(j, o, url, kind) => s.(jobs := s.jobs[j := Looking(o, url, kind)], given := s.given + {(o, url)})
    case Look(j) =>
      var job := s.jobs[j];
      if HasRow(s.table, job.order, job.url)
      then Conclude(s, j, job.order, job.url)
      else s.(jobs := s.jobs[j := Missing(job.order, job.url, job.kind)])
    case Insert(j, id) =>
      var job := s.jobs[j];
      s.(table := InsertOrIgnore(s.table, id, Resource(job.kind, job.order, job.url)),
         jobs := s.jobs[j := Inserted(job.order, job.url, job.kind)])
    case Reread(j) => Conclude(s, j, s.jobs[j].order, s.jobs[j].url)
    case StartPoll(j, o, finalize, certificate) =>
      s.(jobs := s.jobs[j := Polling(LookFinalize, Poll(o, finalize, certificate, None, None))],
         given := s.given + {(o, finalize)} + if certificate.Some? then {(o, certificate.value)} else {})
    case FindFinalize(j, pick) =>
      var poll := s.jobs[j].poll;
      ToPhase(s, j, if poll.certificate.Some? then LookCert else ListAuthz, poll.(finalizeId := pick))
    case FindCert(j, pick) =>
      ToPhase(s, j, if pick.Some? then ListAuthz else InsertCert, s.jobs[j].poll.(certId := pick))
    case SaveCert(j, id) =>
      var poll := s.jobs[j].poll;
      ToPhase(s, j, RereadCert, poll).(table := InsertOrIgnore(s.table, id, Resource(Cert, poll.order, poll.certificate.value)))
    case RefindCert(j, pick) => ToPhase(s, j, ListAuthz, s.jobs[j].poll.(certId := pick))
    case List(j, listed) =>
      var poll := s.jobs[j].poll;
      var authz := if listed then Some(AuthzListing(s.table, poll.order)) else None;
      s.(jobs := s.jobs - {j}, polls := s.polls + [PollAnswer(poll, authz)])
    case Abort(j) => s.(jobs := s.jobs - {j})
  }

  ghost predicate Next(s: State, s': State) {
    exists a :: Enabled(s, a) && s' == Apply(s, a)
  }

  ghost predicate IsRun(run: seq<State>) {
    IsPath(Next, run) && Init(run[0])
  }

  // ---------- the invariant ----------

  /** The k-th URL of an order does not repeat an earlier one. */
  predicate First(urls: seq<Url>, k: nat)
    requires k < |urls|
  {
    urls[k] !in urls[..k]
  }

  /** Row by row, what an order's own writes have left in the table. */
  ghost predicate WrittenAt(t: Table, order: OrderId, urls: seq<Url>, ids: seq<GatewayId>, k: nat)
    requires k < |ids| <= |urls|
  {
    && HasRow(t, order, urls[k])
    && (if First(urls, k)
        then ids[k] in t && t[ids[k]] == Resource(KindAt(k), order, urls[k])
        else !Resolves(t, ids[k], order, urls[k]))
  }

  ghost predicate OwnRow(urls: seq<Url>, ids: seq<GatewayId>, id: GatewayId) {
    exists k :: 0 <= k < |ids| <= |urls| && First(urls, k) && ids[k] == id
  }

  ghost predicate Written(t: Table, order: OrderId, urls: seq<Url>, ids: seq<GatewayId>) {
    && |ids| <= |urls|
    && (forall k :: 0 <= k < |ids| ==> WrittenAt(t, order, urls, ids, k))
    && (forall id :: id in t && t[id].order == order && t[id].kind in {Finalize, Authz} ==> OwnRow(urls, ids, id))
  }

  ghost predicate TableOk(s: State) {
    && Unique(s.table)
    && (forall id :: id in s.table ==> s.table[id].order in s.orders && (s.table[id].order, s.table[id].url) in s.given)
    && (forall i :: 0 <= i < |s.answers| ==> Resolves(s.table, s.answers[i].id, s.answers[i].order, s.answers[i].url))
  }

  ghost predicate WritingOk(s: State, order: OrderId, urls: seq<Url>, ids: seq<GatewayId>) {
    && order in s.orders && order !in s.published && |urls| > 0
    && Written(s.table, order, urls, ids)
    && (forall id :: id in s.table && s.table[id].order == order ==> s.table[id].kind in {Finalize, Authz})
    && (forall u :: u in urls ==> (order, u) in s.given)
  }

  /** What a poll found has the URL it looked for. */
  ghost predicate PollOk(t: Table, poll: Poll) {
    && (poll.finalizeId.Some? ==> HasUrl(t, poll.finalizeId.value, poll.finalize))
    && (poll.certId.Some? ==> poll.certificate.Some? && HasUrl(t, poll.certId.value, poll.certificate.value))
  }

  /** The finalize URL the order was created with is always found. */
  ghost predicate FinalizeFound(published: map<OrderId, Reply>, poll: Poll) {
    poll.order in published && 0 < |published[poll.order].urls| && poll.finalize == published[poll.order].urls[0] ==>
      poll.finalizeId.Some?
  }

  ghost predicate PollingOk(s: State, phase: Phase, poll: Poll) {
    && poll.order in s.published && PollOk(s.table, poll)
    && (!phase.LookFinalize? ==> FinalizeFound(s.published, poll))
    && (poll.certificate.Some? ==> (poll.order, poll.certificate.value) in s.given)
  }

  ghost predicate JobOk(s: State, job: Job) {
    match job
    case Polling(phase, poll) => PollingOk(s, phase, poll)
    case Writing(order, urls, ids) => WritingOk(s, order, urls, ids)
    case _ => job.order in s.published && job.kind in {Challenge, Cert} && (job.order, job.url) in s.given
  }

  ghost predicate JobsOk(s: State) {
    forall j :: j in s.jobs ==> JobOk(s, s.jobs[j])
  }

  /** The authorizations of an order's own response: its identifiers, but for repeated URLs. */
  ghost function AuthzOf(reply: Reply): set<GatewayId> {
    set k | 1 <= k < |reply.ids| && k < |reply.urls| && First(reply.urls, k) :: reply.ids[k]
  }

  ghost predicate PollAnswerOk(t: Table, published: map<OrderId, Reply>, a: PollAnswer) {
    && a.poll.order in published && PollOk(t, a.poll) && FinalizeFound(published, a.poll)
    && (a.authz.Some? ==> a.authz.value == AuthzOf(published[a.poll.order]))
  }

  ghost predicate PollsOk(s: State) {
    forall i :: 0 <= i < |s.polls| ==> PollAnswerOk(s.table, s.published, s.polls[i])
  }

  ghost predicate WritersApart(s: State) {
    forall j, k :: j in s.jobs && k in s.jobs && s.jobs[j].Writing? && s.jobs[k].Writing? && s.jobs[j].order == s.jobs[k].order ==> j == k
  }

  ghost predicate ReplyOk(t: Table, o: OrderId, reply: Reply) {
    0 < |reply.ids| == |reply.urls| && Written(t, o, reply.urls, reply.ids)
  }

  ghost predicate PublishedOk(s: State) {
    forall o :: o in s.published ==> o in s.orders && ReplyOk(s.table, o, s.published[o])
  }

  ghost predicate Inv(s: State) {
    TableOk(s) && JobsOk(s) && WritersApart(s) && PublishedOk(s) && PollsOk(s)
  }

  lemma InsertKeepsRows(t: Table, id: GatewayId, r: Resource)
    requires Unique(t)
    ensures var t' := InsertOrIgnore(t, id, r);
      && Unique(t')
      && (forall g :: g in t ==> g in t' && t'[g] == t[g])
      && (forall g :: g in t' && g !in t ==> g == id && t'[g] == r && !HasRow(t, r.order, r.url))
      && (id !in t ==> HasRow(t', r.order, r.url))
  {
    var t' := InsertOrIgnore(t, id, r);
    if id in t' { assert Resolves(t', id, t'[id].order, t'[id].url); }
  }

  /** Another order's row, or a challenge or certificate row of the order, leaves its own writes as they are. */
  lemma InsertKeepsWritten(t: Table, id: GatewayId, r: Resource, order: OrderId, urls: seq<Url>, ids: seq<GatewayId>)
    requires Unique(t) && Written(t, order, urls, ids)
    requires r.order != order || r.kind in {Challenge, Cert}
    ensures Written(InsertOrIgnore(t, id, r), order, urls, ids)
  {
    InsertKeepsRows(t, id, r);
    var t' := InsertOrIgnore(t, id, r);
    forall k | 0 <= k < |ids| ensures WrittenAt(t', order, urls, ids, k) {
      assert WrittenAt(t, order, urls, ids, k);
    }
  }

  /** The order's own next write. */
  lemma OwnWrite(t: Table, id: GatewayId, order: OrderId, urls: seq<Url>, ids: seq<GatewayId>)
    requires Unique(t) && Written(t, order, urls, ids) && |ids| < |urls| && id !in t
    requires forall g :: g in t && t[g].order == order ==> t[g].kind in {Finalize, Authz}
    ensures Written(InsertOrIgnore(t, id, Resource(KindAt(|ids|), order, urls[|ids|])), order, urls, ids + [id])
  {
    var k := |ids|;
    var r := Resource(KindAt(k), order, urls[k]);
    var t', ids' := InsertOrIgnore(t, id, r), ids + [id];
    InsertKeepsRows(t, id, r);
    FirstIsAbsent(t, order, urls, ids);
    forall i | 0 <= i < |ids'| ensures WrittenAt(t', order, urls, ids', i) {
      if i < k { assert WrittenAt(t, order, urls, ids, i); }
    }
    forall g | g in t' && t'[g].order == order && t'[g].kind in {Finalize, Authz} ensures OwnRow(urls, ids', g) {
      if g in t {
        assert OwnRow(urls, ids, g);
        var i :| 0 <= i < |ids| && First(urls, i) && ids[i] == g;
        assert ids'[i] == g;
      } else {
        assert ids'[k] == g && First(urls, k);
      }
    }
  }

  /** The next URL has a row already exactly when it repeats an earlier one. */
  lemma FirstIsAbsent(t: Table, order: OrderId, urls: seq<Url>, ids: seq<GatewayId>)
    requires Written(t, order, urls, ids) && |ids| < |urls|
    requires forall g :: g in t && t[g].order == order ==> t[g].kind in {Finalize, Authz}
    ensures HasRow(t, order, urls[|ids|]) <==> !First(urls, |ids|)
  {
    var k := |ids|;
    if !First(urls, k) {
      var i :| 0 <= i < k && urls[i] == urls[k];
      assert WrittenAt(t, order, urls, ids, i);
    }
    if HasRow(t, order, urls[k]) {
      var g :| g in t && Resolves(t, g, order, urls[k]);
      assert OwnRow(urls, ids, g);
      var i :| 0 <= i < |ids| && First(urls, i) && ids[i] == g;
      assert WrittenAt(t, order, urls, ids, i);
    }
  }

  /** Orders, responses and given URLs are added, the table stays. */
  ghost predicate Adds(s: State, s': State) {
    && s'.table == s.table && s.orders <= s'.orders && s.given <= s'.given
    && (forall o :: o in s.published ==> o in s'.published && s'.published[o] == s.published[o])
  }

  lemma JobStays(s: State, s': State, job: Job)
    requires JobOk(s, job) && Adds(s, s') && (job.Writing? ==> job.order !in s'.published)
    ensures JobOk(s', job)
  {
  }

  /** The rows of the table stay, and a new one is of a published order's challenge or certificate. */
  ghost predicate AddsRow(s: State, s': State, id: GatewayId, r: Resource) {
    && s'.table == InsertOrIgnore(s.table, id, r)
    && s'.orders == s.orders && s'.given == s.given && s'.published == s.published
  }

  lemma JobStaysBesideRow(s: State, s': State, id: GatewayId, r: Resource, job: Job)
    requires Unique(s.table) && JobOk(s, job) && AddsRow(s, s', id, r)
    requires job.Writing? ==> r.order != job.order
    ensures JobOk(s', job)
  {
    InsertKeepsRows(s.table, id, r);
    if job.Writing? {
      InsertKeepsWritten(s.table, id, r, job.order, job.urls, job.ids);
    }
  }

  lemma RowKeepsTable(s: State, s': State, id: GatewayId, r: Resource)
    requires TableOk(s) && AddsRow(s, s', id, r) && s'.answers == s.answers
    requires r.order in s.orders && (r.order, r.url) in s.given
    ensures TableOk(s')
  {
    InsertKeepsRows(s.table, id, r);
  }

  lemma RowKeepsPublished(s: State, s': State, id: GatewayId, r: Resource)
    requires Unique(s.table) && PublishedOk(s) && PollsOk(s) && AddsRow(s, s', id, r) && s'.polls == s.polls
    requires r.order !in s.published || r.kind in {Challenge, Cert}
    ensures PublishedOk(s') && PollsOk(s')
  {
    InsertKeepsRows(s.table, id, r);
    forall o | o in s'.published ensures ReplyOk(s'.table, o, s'.published[o]) {
      InsertKeepsWritten(s.table, id, r, o, s.published[o].urls, s.published[o].ids);
    }
    forall i | 0 <= i < |s'.polls| ensures PollAnswerOk(s'.table, s'.published, s'.polls[i]) {
      assert PollAnswerOk(s.table, s.published, s.polls[i]);
    }
  }

  /** Only job `own` changes. */
  ghost predicate OnlyJob(s: State, s': State, own: JobId) {
    && (forall j :: j in s'.jobs && j != own ==> j in s.jobs && s'.jobs[j] == s.jobs[j])
    && (own in s'.jobs && s'.jobs[own].Writing? ==> own in s.jobs && s.jobs[own].Writing? && s.jobs[own].order == s'.jobs[own].order)
  }

  lemma SaveNextKept(s: State, a: Action)
    requires Inv(s) && Enabled(s, a) && a.SaveNext?
    ensures Inv(Apply(s, a))
  {
    var s', job := Apply(s, a), s.jobs[a.j];
    var r := Resource(KindAt(|job.ids|), job.order, job.urls[|job.ids|]);
    assert JobOk(s, job);
    OwnWrite(s.table, a.id, job.order, job.urls, job.ids);
    InsertKeepsRows(s.table, a.id, r);
    RowKeepsTable(s, s', a.id, r);
    RowKeepsPublished(s, s', a.id, r);
    forall j | j in s'.jobs ensures JobOk(s', s'.jobs[j]) {
      if j != a.j { JobStaysBesideRow(s, s', a.id, r, s.jobs[j]); }
    }
  }

  /** A challenge or certificate row of a published order, written by job `own`. */
  lemma LateInsertKept(s: State, s': State, own: JobId, id: GatewayId, r: Resource)
    requires Inv(s) && AddsRow(s, s', id, r) && OnlyJob(s, s', own) && s'.answers == s.answers && s'.polls == s.polls
    requires r.order in s.published && r.kind in {Challenge, Cert} && (r.order, r.url) in s.given
    requires own in s'.jobs && !s'.jobs[own].Writing? && JobOk(s', s'.jobs[own])
    ensures Inv(s')
  {
    RowKeepsTable(s, s', id, r);
    RowKeepsPublished(s, s', id, r);
    forall j | j in s'.jobs ensures JobOk(s', s'.jobs[j]) {
      if j != own {
        assert JobOk(s, s.jobs[j]);
        JobStaysBesideRow(s, s', id, r, s.jobs[j]);
      }
    }
  }

  lemma InsertKept(s: State, a: Action)
    requires Inv(s) && Enabled(s, a) && a.Insert?
    ensures Inv(Apply(s, a))
  {
    var job := s.jobs[a.j];
    assert JobOk(s, job);
    LateInsertKept(s, Apply(s, a), a.j, a.id, Resource(job.kind, job.order, job.url));
  }

  lemma SaveCertKept(s: State, a: Action)
    requires Inv(s) && Enabled(s, a) && a.SaveCert?
    ensures Inv(Apply(s, a))
  {
    var poll := s.jobs[a.j].poll;
    var r := Resource(Cert, poll.order, poll.certificate.value);
    assert JobOk(s, s.jobs[a.j]);
    InsertKeepsRows(s.table, a.id, r);
    LateInsertKept(s, Apply(s, a), a.j, a.id, r);
  }

  /** A step of job `own` that leaves the table alone. */
  lemma JobStepKept(s: State, s': State, own: JobId)
    requires Inv(s) && Adds(s, s') && OnlyJob(s, s', own)
    requires s'.published == s.published && TableOk(s') && PollsOk(s')
    requires own in s'.jobs ==> JobOk(s', s'.jobs[own])
    ensures Inv(s')
  {
    forall j | j in s'.jobs ensures JobOk(s', s'.jobs[j]) {
      if j != own {
        assert JobOk(s, s.jobs[j]);
        JobStays(s, s', s.jobs[j]);
      }
    }
  }

  lemma LookKept(s: State, a: Action)
    requires Inv(s) && Enabled(s, a) && (a.Look? || a.Reread?)
    ensures Inv(Apply(s, a))
  {
    assert JobOk(s, s.jobs[a.j]);
    JobStepKept(s, Apply(s, a), a.j);
  }

  /** For a published order the listing is fixed: its own authorizations. */
  lemma ListingIsOwn(t: Table, o: OrderId, reply: Reply)
    requires ReplyOk(t, o, reply)
    ensures AuthzListing(t, o) == AuthzOf(reply)
  {
    forall id | id in AuthzListing(t, o) ensures id in AuthzOf(reply) {
      assert OwnRow(reply.urls, reply.ids, id);
      var k :| 0 <= k < |reply.ids| && First(reply.urls, k) && reply.ids[k] == id;
      assert WrittenAt(t, o, reply.urls, reply.ids, k);
    }
    forall k | 1 <= k < |reply.ids| && First(reply.urls, k) ensures reply.ids[k] in AuthzListing(t, o) {
      assert WrittenAt(t, o, reply.urls, reply.ids, k);
    }
  }

  /** An order's own finalize row exists. */
  lemma FinalizeRow(t: Table, o: OrderId, reply: Reply)
    requires ReplyOk(t, o, reply)
    ensures reply.ids[0] in t && t[reply.ids[0]] == Resource(Finalize, o, reply.urls[0])
  {
    assert First(reply.urls, 0);
    assert WrittenAt(t, o, reply.urls, reply.ids, 0);
  }

  lemma FindFinalizeKept(s: State, a: Action)
    requires Inv(s) && Enabled(s, a) && a.FindFinalize?
    ensures Inv(Apply(s, a))
  {
    var s', poll := Apply(s, a), s.jobs[a.j].poll;
    assert JobOk(s, s.jobs[a.j]);
    FinalizeRow(s.table, poll.order, s.published[poll.order]);
    assert poll.finalize == s.published[poll.order].urls[0] ==> HasUrl(s.table, s.published[poll.order].ids[0], poll.finalize);
    JobStepKept(s, s', a.j);
  }

  lemma ListKept(s: State, a: Action)
    requires Inv(s) && Enabled(s, a) && a.List?
    ensures Inv(Apply(s, a))
  {
    var s', poll := Apply(s, a), s.jobs[a.j].poll;
    assert JobOk(s, s.jobs[a.j]);
    ListingIsOwn(s.table, poll.order, s.published[poll.order]);
    JobStepKept(s, s', a.j);
  }

  lemma QuietKept(s: State, a: Action)
    requires Inv(s) && Enabled(s, a) && (a.StartPoll? || a.FindCert? || a.RefindCert? || a.Seek? || a.Abort?)
    ensures Inv(Apply(s, a))
  {
    if a.j in s.jobs { assert JobOk(s, s.jobs[a.j]); }
    JobStepKept(s, Apply(s, a), a.j);
  }

  lemma StartOrderKept(s: State, a: Action)
    requires Inv(s) && Enabled(s, a) && a.StartOrder?
    ensures Inv(Apply(s, a))
  {
    var s' := Apply(s, a);
    forall j | j in s'.jobs ensures JobOk(s', s'.jobs[j]) {
      if j != a.j {
        assert JobOk(s, s.jobs[j]);
        JobStays(s, s', s.jobs[j]);
      }
    }
    forall j | j in s.jobs && s.jobs[j].Writing? ensures s.jobs[j].order in s.orders { assert JobOk(s, s.jobs[j]); }
  }

  lemma RespondKept(s: State, a: Action)
    requires Inv(s) && Enabled(s, a) && a.Respond?
    ensures Inv(Apply(s, a))
  {
    var s', job := Apply(s, a), s.jobs[a.j];
    assert JobOk(s, job);
    forall j | j in s'.jobs ensures JobOk(s', s'.jobs[j]) {
      assert JobOk(s, s.jobs[j]);
      JobStays(s, s', s.jobs[j]);
    }
    forall i | 0 <= i < |s'.polls| ensures PollAnswerOk(s'.table, s'.published, s'.polls[i]) {
      assert PollAnswerOk(s.table, s.published, s.polls[i]);
    }
  }

  lemma InvStep(s: State, a: Action)
    requires Inv(s) && Enabled(s, a)
    ensures Inv(Apply(s, a))
  {
    match a
    case SaveNext(_, _) => SaveNextKept(s, a);
    case Insert(_, _) => InsertKept(s, a);
    case SaveCert(_, _) => SaveCertKept(s, a);
    case StartOrder(_, _, _) => StartOrderKept(s, a);
    case Respond(_) => RespondKept(s, a);
    case Look(_) => LookKept(s, a);
    case Reread(_) => LookKept(s, a);
    case FindFinalize(_, _) => FindFinalizeKept(s, a);
    case List(_, _) => ListKept(s, a);
    case _ => QuietKept(s, a);
  }

  // ---------- whole runs ----------

  /** Rows, published responses and answers are never changed or removed. */
  ghost predicate OnlyGrows(s: State, s': State) {
    && s.given <= s'.given
    && (forall id :: id in s.table ==> id in s'.table && s'.table[id] == s.table[id])
    && (forall o :: o in s.published ==> o in s'.published && s'.published[o] == s.published[o])
  }

  lemma InsertOnlyGrows(s: State, a: Action)
    requires Inv(s) && Enabled(s, a) && (a.SaveNext? || a.Insert? || a.SaveCert?)
    ensures OnlyGrows(s, Apply(s, a))
  {
  }

  lemma StepOnlyGrows(s: State, a: Action)
    requires Inv(s) && Enabled(s, a)
    ensures OnlyGrows(s, Apply(s, a))
  {
    if a.SaveNext? || a.Insert? || a.SaveCert? {
      InsertOnlyGrows(s, a);
    } else if a.Respond? {
      assert JobOk(s, s.jobs[a.j]);
    }
  }

  lemma RunInv(run: seq<State>, i: nat)
    requires IsRun(run) && i < |run|
    ensures Inv(run[i])
  {
    forall s, s' | Inv(s) && Next(s, s') ensures Inv(s') {
      var a :| Enabled(s, a) && s' == Apply(s, a);
      InvStep(s, a);
    }
    Always(Next, Inv, run, i);
  }

  lemma {:induction false} RunOnlyGrows(run: seq<State>, i: nat, j: nat)
    requires IsRun(run) && i <= j < |run|
    ensures OnlyGrows(run[i], run[j])
  {
    if i < j {
      RunOnlyGrows(run, i, j - 1);
      RunInv(run, j - 1);
      StepOf(Next, run, j);
      var a :| Enabled(run[j-1], a) && run[j] == Apply(run[j-1], a);
      StepOnlyGrows(run[j-1], a);
    }
  }

  /**
    Whatever the interleaving, answers for the same order and URL are the same identifier,
    answers for different pairs are different identifiers, and every later state resolves them.
  */
  lemma GetOrCreateIsLinearizable(run: seq<State>, i: nat, j: nat, m: nat, n: nat)
    requires IsRun(run) && i <= j < |run| && m < |run[i].answers| && n < |run[j].answers|
    ensures var x, y := run[i].answers[m], run[j].answers[n];
      && Resolves(run[j].table, x.id, x.order, x.url)
      && (x.order == y.order && x.url == y.url <==> x.id == y.id)
  {
    RunInv(run, i);
    RunInv(run, j);
    RunOnlyGrows(run, i, j);
  }

  ghost predicate AllDistinct(urls: seq<Url>) {
    forall i, k :: 0 <= i < k < |urls| ==> urls[i] != urls[k]
  }

  lemma FirstsMeanDistinct(urls: seq<Url>)
    ensures AllDistinct(urls) <==> forall k :: 0 <= k < |urls| ==> First(urls, k)
  {
    if forall k :: 0 <= k < |urls| ==> First(urls, k) {
      forall i, k | 0 <= i < k < |urls| ensures urls[i] != urls[k] {
        assert First(urls, k) && urls[..k][i] == urls[i];
      }
    }
  }

  /**
    Every URL of a new-order response leads back, in every later state, to the upstream URL
    it stands for and to its order - exactly when the finalize and authorization URLs the
    upstream gave are pairwise distinct.
  */
  lemma NewOrderRoundTrip(run: seq<State>, i: nat, j: nat, o: OrderId)
    requires IsRun(run) && i <= j < |run| && o in run[i].published
    ensures var reply := run[i].published[o];
      && |reply.ids| == |reply.urls|
      && ((forall k :: 0 <= k < |reply.ids| ==> Resolves(run[j].table, reply.ids[k], o, reply.urls[k]))
          <==> AllDistinct(reply.urls))
  {
    RunInv(run, i);
    RunInv(run, j);
    RunOnlyGrows(run, i, j);
    var reply := run[i].published[o];
    FirstsMeanDistinct(reply.urls);
    forall k | 0 <= k < |reply.ids| ensures Resolves(run[j].table, reply.ids[k], o, reply.urls[k]) <==> First(reply.urls, k) {
      assert WrittenAt(run[j].table, o, reply.urls, reply.ids, k);
    }
  }

  /** With distinct URLs, every later poll lists exactly the authorizations of the response. */
  lemma LaterPollsListTheSame(run: seq<State>, i: nat, j: nat, o: OrderId)
    requires IsRun(run) && i <= j < |run| && o in run[i].published && AllDistinct(run[i].published[o].urls)
    ensures var reply := run[i].published[o];
      && |reply.ids| == |reply.urls| > 0
      && AuthzListing(run[j].table, o) == (set k | 1 <= k < |reply.ids| :: reply.ids[k])
      && (forall g, k :: 0 <= g < k < |reply.ids| ==> reply.ids[g] != reply.ids[k])
  {
    RunInv(run, i);
    RunInv(run, j);
    RunOnlyGrows(run, i, j);
    var reply, t := run[i].published[o], run[j].table;
    FirstsMeanDistinct(reply.urls);
    forall k | 0 <= k < |reply.ids| ensures reply.ids[k] in t && t[reply.ids[k]] == Resource(KindAt(k), o, reply.urls[k]) {
      assert WrittenAt(t, o, reply.urls, reply.ids, k);
    }
    forall id | id in AuthzListing(t, o) ensures exists k :: 1 <= k < |reply.ids| && reply.ids[k] == id {
      assert OwnRow(reply.urls, reply.ids, id);
    }
  }

  // ---------- order polls ----------

  /** No other order has a row with this URL. */
  ghost predicate OwnedAlone(t: Table, order: OrderId, url: Url) {
    forall id :: id in t && t[id].url == url ==> t[id].order == order
  }

  /** The upstream never gave this URL, in whatever role, for another order. */
  ghost predicate Unshared(given: set<(OrderId, Url)>, order: OrderId, url: Url) {
    forall other :: (other, url) in given ==> other == order
  }

  lemma UnsharedIsOwnedAlone(s: State, order: OrderId, url: Url)
    requires TableOk(s) && Unshared(s.given, order, url)
    ensures OwnedAlone(s.table, order, url)
  {
  }

  /**
    Every poll, in every run: what it returns for its finalize and its certificate URL leads
    back to that URL and the order in every later state, unless the upstream gave the URL for
    another order too; for the finalize URL the order was created with, it is the identifier
    of the new-order response.  A listing is always that of the response.
  */
  lemma PollsReturnOwnResources(run: seq<State>, i: nat, j: nat, n: nat)
    requires IsRun(run) && i <= j < |run| && n < |run[i].polls|
    ensures var poll, authz := run[i].polls[n].poll, run[i].polls[n].authz;
      && poll.order in run[i].published
      && var reply := run[i].published[poll.order];
         && 0 < |reply.ids| == |reply.urls|
         && (poll.finalize == reply.urls[0] && Unshared(run[i].given, poll.order, poll.finalize) ==>
               poll.finalizeId == Some(reply.ids[0]))
         && (poll.finalizeId.Some? && Unshared(run[i].given, poll.order, poll.finalize) ==>
               Resolves(run[j].table, poll.finalizeId.value, poll.order, poll.finalize))
         && (poll.certId.Some? ==> poll.certificate.Some?)
         && (poll.certId.Some? && Unshared(run[i].given, poll.order, poll.certificate.value) ==>
               Resolves(run[j].table, poll.certId.value, poll.order, poll.certificate.value))
         && (authz.Some? ==> authz.value == AuthzOf(reply))
  {
    RunInv(run, i);
    RunOnlyGrows(run, i, j);
    var s, a := run[i], run[i].polls[n];
    var poll := a.poll;
    assert PollAnswerOk(s.table, s.published, a);
    FinalizeRow(s.table, poll.order, s.published[poll.order]);
    if Unshared(s.given, poll.order, poll.finalize) { UnsharedIsOwnedAlone(s, poll.order, poll.finalize); }
    if poll.certId.Some? && Unshared(s.given, poll.order, poll.certificate.value) {
      UnsharedIsOwnedAlone(s, poll.order, poll.certificate.value);
    }
  }

  /**
    At the moment of the lookup: a poll for the order's own finalize URL is bound to return
    the order's own identifier exactly when no other order has a row with the URL.
  */
  lemma FinalizeLookupExactly(run: seq<State>, i: nat, j: JobId)
    requires IsRun(run) && i < |run| && InPhase(run[i], j, LookFinalize)
    ensures var poll := run[i].jobs[j].poll;
      && poll.order in run[i].published
      && var reply := run[i].published[poll.order];
         && 0 < |reply.ids| == |reply.urls|
         && (poll.finalize == reply.urls[0] ==>
               ((forall pick :: Enabled(run[i], FindFinalize(j, pick)) ==> pick == Some(reply.ids[0])) <==>
                OwnedAlone(run[i].table, poll.order, poll.finalize)))
  {
    RunInv(run, i);
    var s, poll := run[i], run[i].jobs[j].poll;
    assert JobOk(s, s.jobs[j]);
    var reply := s.published[poll.order];
    FinalizeRow(s.table, poll.order, reply);
    if poll.finalize == reply.urls[0] && !OwnedAlone(s.table, poll.order, poll.finalize) {
      var id :| id in s.table && s.table[id].url == poll.finalize && s.table[id].order != poll.order;
      assert Enabled(s, FindFinalize(j, Some(id)));
    }
    if poll.finalize == reply.urls[0] && OwnedAlone(s.table, poll.order, poll.finalize) {
      forall pick | Enabled(s, FindFinalize(j, pick)) ensures pick == Some(reply.ids[0]) {
        assert HasUrl(s.table, reply.ids[0], poll.finalize);
      }
    }
  }

  lemma Then(run: seq<State>, a: Action) returns (run': seq<State>)
    requires IsRun(run) && Enabled(run[|run|-1], a)
    ensures IsRun(run') && run'[|run'|-1] == Apply(run[|run|-1], a)
  {
    run' := Extend(Next, run, Apply(run[|run|-1], a));
  }

  /** An order with one URL, its finalize URL, is created undisturbed. */
  lemma CreateOrder(run: seq<State>, o: OrderId, url: Url, id: GatewayId) returns (run': seq<State>)
    requires IsRun(run) && run[|run|-1].jobs == map[] && o !in run[|run|-1].orders && id !in run[|run|-1].table
    requires !HasRow(run[|run|-1].table, o, url)
    ensures IsRun(run')
    ensures var s, s' := run[|run|-1], run'[|run'|-1];
      && s'.jobs == map[] && s'.table == s.table[id := Resource(Finalize, o, url)] && s'.orders == s.orders + {o}
      && s'.published == s.published[o := Reply([url], [id])] && s'.polls == s.polls
  {
    run' := Then(run, StartOrder(0, o, [url]));
    run' := Then(run', SaveNext(0, id));
    assert run'[|run'|-1].jobs[0] == Writing(o, [url], [id]);
    run' := Then(run', Respond(0));
    assert run'[|run'|-1].jobs == map[];
  }

  /** Two orders with one finalize URL: a poll of the second returns the first one's finalize identifier. */
  lemma SharedFinalizeUrlMisleads() returns (run: seq<State>)
    ensures IsRun(run)
    ensures var s := run[|run|-1];
      && s.published == map["a" := Reply(["f"], ["1"]), "b" := Reply(["f"], ["2"])]
      && s.polls == [PollAnswer(Poll("b", "f", None, Some("1"), None), None)]
      && "1" in s.table && s.table["1"].order == "a"
  {
    run := [State(map[], {}, map[], map[], [], [], {})];
    run := CreateOrder(run, "a", "f", "1");
    run := CreateOrder(run, "b", "f", "2");
    run := Then(run, StartPoll(0, "b", "f", None));
    run := Then(run, FindFinalize(0, Some("1")));
    run := Then(run, List(0, false));
  }

  /** A repeated URL: the second identifier of the response leads nowhere. */
  lemma RepeatedUrlBreaksRoundTrip() returns (run: seq<State>)
    ensures IsRun(run)
    ensures var s := run[|run|-1];
      && s.published == map["a" := Reply(["u", "u"], ["1", "2"])] && "2" !in s.table
  {
    run := [State(map[], {}, map[], map[], [], [], {})];
    run := Then(run, StartOrder(0, "a", ["u", "u"]));
    run := Then(run, SaveNext(0, "1"));
    var t := run[|run|-1].table;
    assert Resolves(t, "1", "a", "u") && t == map["1" := Resource(Finalize, "a", "u")];
    assert HasRow(t, "a", "u");
    run := Then(run, SaveNext(0, "2"));
    assert run[|run|-1].jobs[0] == Writing("a", ["u", "u"], ["1", "2"]);
    run := Then(run, Respond(0));
  }

  // ---------- one undisturbed poll, as a path of the machine ----------

  lemma Advance(s: State, m: State, a: Action)
    requires Reaches(Next, s, m) && Enabled(m, a)
    ensures Reaches(Next, s, Apply(m, a))
  {
    ReachesStep(Next, s, m, Apply(m, a));
  }

  /** What an undisturbed poll finds, and what it leaves in the table. */
  ghost predicate PollFinds(t: Table, t': Table, poll: Poll, uuid: GatewayId) {
    && FoundByUrl(t, poll.finalize, poll.finalizeId)
    && match poll.certificate
       case None => t' == t && poll.certId == None
       case Some(url) =>
         && FoundByUrl(t', url, poll.certId)
         && t' == if exists id :: HasUrl(t, id, url) then t else InsertOrIgnore(t, uuid, Resource(Cert, poll.order, url))
  }

  lemma PathFindsCert(s: State, m: State, j: JobId, t': Table, poll: Poll, uuid: GatewayId) returns (m': State)
    requires Reaches(Next, s, m) && InPhase(m, j, LookCert) && m.jobs[j].poll == poll.(certId := None)
    requires PollFinds(m.table, t', poll, uuid)
    ensures Reaches(Next, s, m') && m' == m.(table := t', jobs := m.jobs[j := Polling(ListAuthz, poll)])
  {
    if m.table == t' && poll.certId.Some? {
      Advance(s, m, FindCert(j, poll.certId));
      m' := Apply(m, FindCert(j, poll.certId));
    } else {
      Advance(s, m, FindCert(j, None));
      var m1 := Apply(m, FindCert(j, None));
      Advance(s, m1, SaveCert(j, uuid));
      var m2 := Apply(m1, SaveCert(j, uuid));
      assert m2.table == t';
      Advance(s, m2, RefindCert(j, poll.certId));
      m' := Apply(m2, RefindCert(j, poll.certId));
    }
  }

  lemma PathFindsFinalize(s: State, j: JobId, poll: Poll) returns (m: State)
    requires j !in s.jobs && poll.order in s.published && FoundByUrl(s.table, poll.finalize, poll.finalizeId)
    ensures Reaches(Next, s, m) && m.table == s.table && m.polls == s.polls && m.published == s.published
    ensures m.jobs == s.jobs[j := Polling(if poll.certificate.Some? then LookCert else ListAuthz, poll.(certId := None))]
  {
    ReachesSelf(Next, s);
    var start := StartPoll(j, poll.order, poll.finalize, poll.certificate);
    Advance(s, s, start);
    m := Apply(s, start);
    Advance(s, m, FindFinalize(j, poll.finalizeId));
    m := Apply(m, FindFinalize(j, poll.finalizeId));
  }

  /** From any state with that table, the poll is a path of the machine that answers what was found. */
  lemma PollIsPath(s: State, j: JobId, t': Table, poll: Poll, uuid: GatewayId) returns (s': State)
    requires j !in s.jobs && poll.order in s.published && PollFinds(s.table, t', poll, uuid)
    ensures Reaches(Next, s, s') && s'.table == t' && s'.jobs == s.jobs && s'.published == s.published
    ensures s'.polls == s.polls + [PollAnswer(poll, Some(AuthzListing(t', poll.order)))]
  {
    var m := PathFindsFinalize(s, j, poll);
    if poll.certificate.Some? {
      m := PathFindsCert(s, m, j, t', poll, uuid);
    }
    Advance(s, m, List(j, true));
    s' := Apply(m, List(j, true));
  }

  // ---------- the store, and the handlers' sequential code ----------

  class Store {
    var resources: Table

    method SaveResource(id: GatewayId, r: Resource)
      modifies this
      ensures resources == InsertOrIgnore(old(resources), id, r)
    {
      if id !in resources && !HasRow(resources, r.order, r.url) {
        resources := resources[id := r];
      }
    }

    method GetResourceByUpstreamURLAndOrder(url: Url, order: OrderId) returns (id: Option<GatewayId>)
      ensures id.Some? ==> Resolves(resources, id.value, order, url)
      ensures id.None? ==> !HasRow(resources, order, url)
    {
      if g :| g in resources && Resolves(resources, g, order, url) {
        return Some(g);
      }
      return None;
    }

    /** Any row with the URL: the database promises no order. */
    method GetResourceByUpstreamURL(url: Url) returns (id: Option<GatewayId>)
      ensures id.Some? ==> id.value in resources && resources[id.value].url == url
      ensures id.None? ==> forall g :: g in resources ==> resources[g].url != url
    {
      if g :| g in resources && resources[g].url == url {
        return Some(g);
      }
      return None;
    }

    method GetAuthzResourcesByOrderID(order: OrderId) returns (ids: seq<GatewayId>)
      ensures (set id | id in ids) == AuthzListing(resources, order)
      ensures forall i, k :: 0 <= i < k < |ids| ==> ids[i] != ids[k]
    {
      ids := [];
      var todo := resources.Keys;
      while todo != {}
        invariant todo <= resources.Keys
        invariant forall id :: id in ids <==> id in AuthzListing(resources, order) && id !in todo
        invariant forall i, k :: 0 <= i < k < |ids| ==> ids[i] != ids[k]
        decreases |todo|
      {
        var id :| id in todo;
        if resources[id].order == order && resources[id].kind == Authz {
          ids := ids + [id];
        }
        todo := todo - {id};
      }
    }

    /** Look up, insert, read again; fails only when the new UUID was already taken. */
    method EnsureGatewayCertURL(order: OrderId, url: Url, uuid: GatewayId) returns (id: Option<GatewayId>)
      requires Unique(resources)
      modifies this
      ensures Unique(resources)
      ensures resources == if HasRow(old(resources), order, url) then old(resources)
                           else InsertOrIgnore(old(resources), uuid, Resource(Cert, order, url))
      ensures id.Some? ==> Resolves(resources, id.value, order, url)
      ensures id.None? <==> !HasRow(old(resources), order, url) && uuid in old(resources)
    {
      id := GetResourceByUpstreamURLAndOrder(url, order);
      if id.None? {
        InsertKeepsRows(resources, uuid, Resource(Cert, order, url));
        SaveResource(uuid, Resource(Cert, order, url));
        id := GetResourceByUpstreamURLAndOrder(url, order);
      }
    }

    /**
      The order poll.  Its finalize and certificate identifiers come from lookups by URL
      alone: they belong to the order when no other order has a row with the URL.
    */
    method BuildOrderResponse(order: OrderId, finalize: Url, certificate: Option<Url>, uuid: GatewayId)
      returns (finalizeId: Option<GatewayId>, certId: Option<GatewayId>, authzIds: seq<GatewayId>)
      requires Unique(resources)
      modifies this
      ensures Unique(resources)
      ensures forall id :: id in old(resources) ==> id in resources && resources[id] == old(resources)[id]
      ensures OwnedAlone(old(resources), order, finalize) && HasRow(old(resources), order, finalize) ==>
                finalizeId.Some? && Resolves(old(resources), finalizeId.value, order, finalize)
      ensures certificate.Some? && OwnedAlone(old(resources), order, certificate.value) && uuid !in old(resources) ==>
                certId.Some? && Resolves(resources, certId.value, order, certificate.value)
      ensures (set id | id in authzIds) == AuthzListing(old(resources), order) == AuthzListing(resources, order)
      ensures PollFinds(old(resources), resources, Poll(order, finalize, certificate, finalizeId, certId), uuid)
    {
      finalizeId := GetResourceByUpstreamURL(finalize);
      certId := None;
      if certificate.Some? {
        certId := GetResourceByUpstreamURL(certificate.value);
        assert certId.Some? ==> HasUrl(resources, certId.value, certificate.value);
        if certId.None? {
          InsertKeepsRows(resources, uuid, Resource(Cert, order, certificate.value));
          SaveResource(uuid, Resource(Cert, order, certificate.value));
          certId := GetResourceByUpstreamURL(certificate.value);
        }
      }
      authzIds := GetAuthzResourcesByOrderID(order);
      assert AuthzListing(resources, order) == AuthzListing(old(resources), order);
    }
  }
}

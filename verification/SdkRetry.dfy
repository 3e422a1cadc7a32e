/** The client's append with retries, against a service that other writers change between its calls. */
module SdkRetry {
  import opened Prelude
  import opened Canonical
  import opened ProofChain
  import opened Verifier
  import opened ProofApi
  import opened ChainFacts
  import opened ProtocolEquivalence
  import opened Concurrency

  // ---- what happened at the service ----

  ghost predicate Sound(s: Services, proofId: string, proof: Option<Proof>) {
    proof.Some? ==> ProofSound(s, proofId, proof.value)
  }

  /** Other writers: they may create the proof or grow it, and keep it sound (Concurrency.EveryInterleavingIsSafe). */
  ghost predicate Evolves(s: Services, proofId: string, before: Option<Proof>, after: Option<Proof>) {
    && Sound(s, proofId, after)
    && (before.Some? ==> after.Some? && GrownFrom(before.value, after.value))
  }

  /** One POST by this client: the status its unlocked phase saw, and the proof before and after the locked one. */
  datatype Post = Post(
    sub: Submission, seen: Status, before: Option<Proof>, result: Result<Event, Reject>, after: Option<Proof>)

  ghost predicate PostSound(s: Services, proofId: string, post: Post) {
    match post.result
    case Err(reject) =>
      && post.after == post.before
      && (|| (post.before.None? && reject == if WellFormed(post.sub) then ProofNotFound else Malformed)
          || (post.before.Some? && Precheck(s, proofId, post.before.value.version, post.seen, post.sub) == Some(reject))
          || (post.before.Some? && LockedCheck(s, proofId, post.before.value, post.sub) == Some(reject)))
    case Ok(e) =>
      && post.before.Some?
      && Precheck(s, proofId, post.before.value.version, post.seen, post.sub).None?
      && LockedCheck(s, proofId, post.before.value, post.sub).None?
      && e == CreateEvent(s, proofId, post.before.value.events, EventDraft(post.sub), e.eventId, e.createdAt)
      && post.after == Some(WithEvent(s, proofId, post.before.value, post.sub, e.eventId, e.createdAt))
  }

  /** Between its posts, and before and after them, only others act. */
  ghost predicate History(s: Services, proofId: string, start: Option<Proof>, posts: seq<Post>, now: Option<Proof>) {
    if posts == [] then Evolves(s, proofId, start, now)
    else
      var n := |posts| - 1;
      && History(s, proofId, start, posts[..n], posts[n].before)
      && PostSound(s, proofId, posts[n])
      && Evolves(s, proofId, posts[n].after, now)
  }

  lemma EvolvesReflexive(s: Services, proofId: string, proof: Option<Proof>)
    requires Sound(s, proofId, proof)
    ensures Evolves(s, proofId, proof, proof)
  {
    hide ProofSound;
  }

  lemma EvolvesTransitive(s: Services, proofId: string, a: Option<Proof>, b: Option<Proof>, c: Option<Proof>)
    requires Evolves(s, proofId, a, b) && Evolves(s, proofId, b, c)
    ensures Evolves(s, proofId, a, c)
  {
    hide ProofSound;
  }

  lemma HistoryExtends(s: Services, proofId: string, start: Option<Proof>, posts: seq<Post>, now: Option<Proof>,
      later: Option<Proof>)
    requires History(s, proofId, start, posts, now) && Evolves(s, proofId, now, later)
    ensures History(s, proofId, start, posts, later)
  {
    hide Evolves, PostSound;
    EvolvesTransitive(s, proofId, if posts == [] then start else posts[|posts| - 1].after, now, later);
  }

  lemma HistorySnoc(s: Services, proofId: string, start: Option<Proof>, posts: seq<Post>, post: Post)
    requires History(s, proofId, start, posts, post.before) && PostSound(s, proofId, post)
    requires Sound(s, proofId, post.after)
    ensures History(s, proofId, start, posts + [post], post.after)
  {
    hide Evolves, PostSound, Sound;
    EvolvesReflexive(s, proofId, post.after);
    var longer := posts + [post];
    assert longer[..|longer| - 1] == posts;
  }

  lemma HistoryIsSound(s: Services, proofId: string, start: Option<Proof>, posts: seq<Post>, now: Option<Proof>)
    requires History(s, proofId, start, posts, now)
    ensures Sound(s, proofId, now)
    ensures posts != [] ==> PostSound(s, proofId, posts[|posts| - 1])
  {
    hide Sound, PostSound;
  }

  // ---- the service as one client sees it ----

  /** What GET returns. The client does not take its word for the head. */
  datatype Export = Export(events: seq<Event>, chainHead: Option<string>)

  /** Everything the client does not control, step by step: what others do, what GET answers (truthfully or
      not), and the identifiers and times the service draws. */
  datatype Environment = Environment(
    others: (nat, Option<Proof>) -> Option<Proof>,
    answer: (nat, Option<Proof>) -> Result<Export, Reject>,
    stamp: nat -> (string, string))

  ghost predicate WellBehaved(s: Services, proofId: string, env: Environment) {
    forall k: nat, proof :: Sound(s, proofId, proof) ==> Evolves(s, proofId, proof, env.others(k, proof))
  }

  class Remote {
    const s: Services
    const proofId: string
    const env: Environment
    var time: nat
    var proof: Option<Proof>
    ghost const start: Option<Proof>
    ghost var posts: seq<Post>
    ghost var answers: seq<Result<Export, Reject>>

    ghost predicate Valid()
      reads this
    {
      WellBehaved(s, proofId, env) && History(s, proofId, start, posts, proof)
    }

    constructor (s: Services, proofId: string, env: Environment, proof: Option<Proof>)
      requires Sound(s, proofId, proof) && WellBehaved(s, proofId, env)
      ensures Valid() && this.s == s && this.proofId == proofId && start == proof && this.proof == proof
      ensures posts == [] && answers == []
    {
      hide Evolves, Sound;
      this.s, this.proofId, this.env := s, proofId, env;
      this.time, this.proof, this.start, this.posts, this.answers := 0, proof, proof, [], [];
      EvolvesReflexive(s, proofId, proof);
    }

    method Others()
      requires Valid()
      modifies this`proof, this`time
      ensures Valid() && Evolves(s, proofId, old(proof), proof)
    {
      hide Evolves, Sound, History;
      HistoryIsSound(s, proofId, start, posts, proof);
      HistoryExtends(s, proofId, start, posts, proof, env.others(time, proof));
      proof, time := env.others(time, proof), time + 1;
    }

    method Get() returns (answer: Result<Export, Reject>)
      requires Valid()
      modifies this`proof, this`time, this`answers
      ensures Valid() && answers == old(answers) + [answer]
    {
      hide Evolves, WellBehaved, History;
      Others();
      answer := env.answer(time, proof);
      answers := answers + [answer];
    }

    /** POST: unlocked checks, whatever happens before the lock is taken, then the locked half. */
    method Send(sub: Submission) returns (result: Result<Event, Reject>)
      requires Valid()
      modifies this`proof, this`time, this`posts
      ensures Valid()
      ensures |posts| == |old(posts)| + 1 && posts[..|old(posts)|] == old(posts)
      ensures posts[|old(posts)|].sub == sub && posts[|old(posts)|].result == result
      ensures posts[|old(posts)|].after == proof
    {
      hide WellBehaved, History, Sound, ProofSound, Precheck, LockedCheck, CreateEvent, WithEvent, IsFinal;
      Others();
      if proof.None? {
        result := Err(if WellFormed(sub) then ProofNotFound else Malformed);
        HistorySnocHere(Post(sub, Pending, proof, result, proof));
        posts := posts + [Post(sub, Pending, proof, result, proof)];
        return;
      }
      ghost var seen := proof.value.status;
      var problem := Precheck(s, proofId, proof.value.version, proof.value.status, sub);
      if problem.None? {
        Others();
        problem := LockedCheck(s, proofId, proof.value, sub);
      }
      if problem.Some? {
        result := Err(problem.value);
        HistorySnocHere(Post(sub, seen, proof, result, proof));
        posts := posts + [Post(sub, seen, proof, result, proof)];
        return;
      }
      var (eventId, createdAt) := env.stamp(time);
      var e := CreateEvent(s, proofId, proof.value.events, EventDraft(sub), eventId, createdAt);
      var after := WithEvent(s, proofId, proof.value, sub, eventId, createdAt);
      result := Ok(e);
      ghost var post := Post(sub, seen, proof, result, Some(after));
      CreatedEventStamps(s, proofId, proof.value.events, sub, eventId, createdAt);
      HistoryIsSound(s, proofId, start, posts, proof);
      AppendStaysSound(s, proofId, proof.value, seen, sub, eventId, createdAt);
      HistorySnoc(s, proofId, start, posts, post);
      proof := Some(after);
      posts := posts + [post];
    }

    lemma LastPost()
      requires Valid() && posts != []
      ensures PostSound(s, proofId, posts[|posts| - 1]) && Sound(s, proofId, proof)
      ensures posts[|posts| - 1].result.Err? ==> Refused(posts[|posts| - 1])
    {
      hide WellBehaved, ProofSound, Precheck, LockedCheck;
    }

    lemma HistorySnocHere(post: Post)
      requires Valid() && post.before == post.after == proof && PostSound(s, proofId, post)
      ensures History(s, proofId, start, posts + [post], proof)
    {
      hide WellBehaved, History, PostSound, Sound;
      HistoryIsSound(s, proofId, start, posts, proof);
      HistorySnoc(s, proofId, start, posts, post);
    }
  }

  predicate Refused(post: Post) {
    post.result.Err? && post.after == post.before
  }

  lemma CreatedEventStamps(s: Services, proofId: string, events: seq<Event>, sub: Submission, eventId: string,
      createdAt: string)
    ensures var e := CreateEvent(s, proofId, events, EventDraft(sub), eventId, createdAt);
            && e.eventId == eventId && e.createdAt == createdAt
            && e.nonce == sub.nonce && e.kind == sub.kind && e.actor == sub.actor
            && e.previousHash == ChainHead(s, proofId, events)
  {
  }

  lemma AppendStaysSound(s: Services, proofId: string, proof: Proof, seen: Status, sub: Submission, eventId: string,
      createdAt: string)
    requires Sound(s, proofId, Some(proof))
    requires Precheck(s, proofId, proof.version, seen, sub).None? && LockedCheck(s, proofId, proof, sub).None?
    ensures Sound(s, proofId, Some(WithEvent(s, proofId, proof, sub, eventId, createdAt)))
  {
    hide ProofSound, Precheck, LockedCheck, WithEvent;
    AppendKeepsProof(s, proofId, proof, seen, sub, eventId, createdAt);
  }

  // ---- the client ----

  datatype Outcome =
    | Stored(event: Event)
    | BadRetries
    | BadEventField
    | ChainUnusable
    | ApiRefused(reject: Reject)
    | HeadMoved(signedHead: string, currentHead: string)

  /** A head may be signed if it is the link hash of the last event of an export that claims that very head. */
  predicate Computed(s: Services, proofId: string, answer: Result<Export, Reject>, head: string) {
    && answer.Ok? && answer.value.events != []
    && head == EventLink(s, proofId, answer.value.events[|answer.value.events| - 1])
    && answer.value.chainHead == Some(head)
  }

  /** An answer no head can be taken from, and what the client reports: a refusal, or an export with no events or
      with another head than the link hash of its last event. */
  predicate Unusable(s: Services, proofId: string, answer: Result<Export, Reject>, outcome: Outcome) {
    match answer
    case Err(reject) => outcome == ApiRefused(reject)
    case Ok(export_) =>
      && outcome == ChainUnusable
      && (export_.events != [] ==>
            export_.chainHead != Some(EventLink(s, proofId, export_.events[|export_.events| - 1])))
  }

  predicate HeadTaken(s: Services, proofId: string, answer: Result<Export, Reject>, head: Result<string, Outcome>) {
    match head case Ok(h) => Computed(s, proofId, answer, h) case Err(outcome) => Unusable(s, proofId, answer, outcome)
  }

  /** current_head: compute the head from the exported events, and refuse an export that claims another. */
  method CurrentHead(remote: Remote) returns (head: Result<string, Outcome>)
    requires remote.Valid()
    modifies remote`proof, remote`time, remote`answers
    ensures remote.Valid() && remote.posts == old(remote.posts)
    ensures |remote.answers| == |old(remote.answers)| + 1 && old(remote.answers) <= remote.answers
    ensures HeadTaken(remote.s, remote.proofId, remote.answers[|old(remote.answers)|], head)
    ensures var answer := remote.answers[|old(remote.answers)|];
            && (head.Ok? <==>
                && answer.Ok? && answer.value.events != []
                && answer.value.chainHead
                   == Some(EventLink(remote.s, remote.proofId, answer.value.events[|answer.value.events| - 1])))
            && (head.Ok? ==>
                  head.value == EventLink(remote.s, remote.proofId, answer.value.events[|answer.value.events| - 1]))
  {
    hide WellBehaved, History, Link;
    var answer := remote.Get();
    if answer.Err? {
      return Err(ApiRefused(answer.error));
    }
    var computed := ChainHead(remote.s, remote.proofId, answer.value.events);
    if computed.None? {
      return Err(ChainUnusable);
    }
    if computed != answer.value.chainHead {
      return Err(ChainUnusable);
    }
    return Ok(computed.value);
  }

  /** What the client signs for a given head. */
  function Signed(s: Services, proofId: string, sign: string -> string, d: Draft, head: string): Result<Submission,
      Outcome> {
    match BuildEventV4(EventV4(proofId, d.kind, s.payloadDigest(d.payload), d.nonce, head))
    case Err(_) => Err(BadEventField)
    case Ok(canonical) => Ok(Submission(d.kind, d.actor, d.payload, d.nonce, sign(canonical), canonical, Some(head)))
  }

  /** The submission, spelled out: the message states the proof, the kind, the payload's digest, the nonce and the
      head, and the signature is of that message. */
  lemma SignedExactly(s: Services, proofId: string, sign: string -> string, d: Draft, head: string)
    ensures Signed(s, proofId, sign, d, head) ==
            var message := "FLOP/EVENT/v4|" + proofId + "|" + d.kind + "|" + s.payloadDigest(d.payload) + "|" + d.nonce
                           + "|" + head;
            if IsProofId(proofId) && FieldOk(d.kind) && FieldOk(d.nonce) && IsHash(head) then
              Ok(Submission(kind := d.kind, actor := d.actor, payload := d.payload, nonce := d.nonce,
                            sig := sign(message), canonical := message, priorHead := Some(head)))
            else Err(BadEventField)
  {
    hide BuildEventV4, IsProofId, FieldOk, IsHash;
    EventV4Layout(EventV4(proofId, d.kind, s.payloadDigest(d.payload), d.nonce, head));
    assert IsHash(s.payloadDigest(d.payload));
  }

  /** The same event, signed on this head. */
  predicate SignedOn(s: Services, proofId: string, sign: string -> string, d: Draft, sub: Submission) {
    sub.priorHead.Some? && Signed(s, proofId, sign, d, sub.priorHead.value) == Ok(sub)
  }

  /** A stored nonce identifies its event. */
  predicate OnlyEventWithNonce(events: seq<Event>, e: Event) {
    e in events && forall k :: 0 <= k < |events| && events[k].nonce == e.nonce ==> events[k] == e && e.sequence == k + 1
  }

  // ---- what one call did ----

  /** The call: what to append, and the head to sign first if the caller gave one. `d.canonical` and
      `d.signature` are not used, they are what is computed. */
  datatype Job = Job(sign: string -> string, d: Draft, priorHead: Option<string>)

  /** Its posts, the answers it took heads from, and those heads. */
  datatype Trace = Trace(posts: seq<Post>, answers: seq<Result<Export, Reject>>, heads: seq<string>)

  /** Every post is this event on some head, and only a stale head led to another. */
  predicate Tried(s: Services, proofId: string, job: Job, posts: seq<Post>) {
    && (forall k :: 0 <= k < |posts| ==> SignedOn(s, proofId, job.sign, job.d, posts[k].sub))
    && (forall k :: 0 <= k < |posts| - 1 ==> posts[k].result == Err(HeadMismatch))
  }

  /** The heads to sign, in order: the one the caller gave, if any, then one per answer, computed and checked. */
  predicate HeadsRead(s: Services, proofId: string, priorHead: Option<string>, answers: seq<Result<Export, Reject>>,
      heads: seq<string>) {
    var given := if priorHead.Some? then 1 else 0;
    && |heads| == given + |answers|
    && (priorHead.Some? ==> heads[0] == priorHead.value)
    && forall k :: 0 <= k < |answers| ==> Computed(s, proofId, answers[k], heads[given + k])
  }

  /** Post `k` signs head `k`. */
  predicate SignsInOrder(posts: seq<Post>, heads: seq<string>) {
    |posts| <= |heads| && forall k :: 0 <= k < |posts| ==> posts[k].sub.priorHead == Some(heads[k])
  }

  predicate Traced(s: Services, proofId: string, job: Job, tr: Trace) {
    && Tried(s, proofId, job, tr.posts)
    && HeadsRead(s, proofId, job.priorHead, tr.answers, tr.heads)
    && SignsInOrder(tr.posts, tr.heads)
  }

  /** Every head that was read is the link hash of the last event of its answer, which claims the same. */
  lemma HeadsAreComputed(s: Services, proofId: string, job: Job, tr: Trace, k: nat)
    requires Traced(s, proofId, job, tr) && k < |tr.answers|
    ensures var head := tr.heads[if job.priorHead.Some? then k + 1 else k];
            && tr.answers[k].Ok? && tr.answers[k].value.events != []
            && head == EventLink(s, proofId, tr.answers[k].value.events[|tr.answers[k].value.events| - 1])
            && tr.answers[k].value.chainHead == Some(head)
  {
    hide Tried, SignsInOrder;
    assert Computed(s, proofId, tr.answers[k], tr.heads[if job.priorHead.Some? then k + 1 else k]);
  }

  predicate NoneStored(posts: seq<Post>) {
    forall k :: 0 <= k < |posts| ==> Refused(posts[k])
  }

  predicate LastStored(posts: seq<Post>, d: Draft, proof: Option<Proof>, e: Event) {
    && posts != [] && posts[|posts| - 1].result == Ok(e) && NoneStored(posts[..|posts| - 1])
    && e.nonce == d.nonce && e.previousHash == posts[|posts| - 1].sub.priorHead
    && proof.Some? && OnlyEventWithNonce(proof.value.events, e)
  }

  /** Between posts: all of them refused, the last for its head. */
  predicate Waiting(s: Services, proofId: string, job: Job, tr: Trace) {
    && Traced(s, proofId, job, tr) && NoneStored(tr.posts)
    && (tr.posts != [] ==> tr.posts[|tr.posts| - 1].result == Err(HeadMismatch))
  }

  /** Why the call ended as it did: out of retries or closing, a field that cannot be signed, a refusal other
      than a stale head, or an answer (the last one) that yields no head. */
  predicate Justified(s: Services, proofId: string, job: Job, retries: int, tr: Trace, answers: seq<Result<Export,
      Reject>>, outcome: Outcome) {
    var posts, heads := tr.posts, tr.heads;
    match outcome
    case Stored(_) => posts != []
    case BadRetries => retries < 0 && posts == []
    case BadEventField => |heads| == |posts| + 1 && Signed(s, proofId, job.sign, job.d, heads[|posts|]).Err?
    case HeadMoved(signedHead, currentHead) =>
      && |heads| == |posts| + 1 >= 2 && signedHead == heads[|posts| - 1] && currentHead == heads[|posts|]
      && posts[|posts| - 1].result == Err(HeadMismatch) && (|posts| == retries + 1 || Closing(job.d.kind))
    case _ =>
      |heads| == |posts| &&
      if posts != [] && posts[|posts| - 1].result != Err(HeadMismatch) then
        outcome.ApiRefused? && posts[|posts| - 1].result == Err(outcome.reject)
      else answers != [] && Unusable(s, proofId, answers[|answers| - 1], outcome)
  }

  /** The service's logs hold what they held before the call, and then exactly the call's posts and answers;
      `useless` allows one last answer no head could be taken from. */
  predicate Logged(posts: seq<Post>, answers: seq<Result<Export, Reject>>, tr: Trace, nowPosts: seq<Post>,
                   nowAnswers: seq<Result<Export, Reject>>, useless: nat) {
    && nowPosts == posts + tr.posts
    && answers + tr.answers <= nowAnswers && |nowAnswers| <= |answers| + |tr.answers| + useless
  }

  lemma LoggedPost(posts: seq<Post>, answers: seq<Result<Export, Reject>>, tr: Trace, nowPosts: seq<Post>,
                   nowAnswers: seq<Result<Export, Reject>>, post: Post)
    requires Logged(posts, answers, tr, nowPosts, nowAnswers, 0)
    ensures Logged(posts, answers, Trace(tr.posts + [post], tr.answers, tr.heads), nowPosts + [post], nowAnswers, 0)
    ensures Logged(posts, answers, Trace(tr.posts + [post], tr.answers, tr.heads), nowPosts + [post], nowAnswers, 1)
  {
  }

  lemma LoggedAnswer(posts: seq<Post>, answers: seq<Result<Export, Reject>>, tr: Trace, nowPosts: seq<Post>,
                     nowAnswers: seq<Result<Export, Reject>>, answer: Result<Export, Reject>, head: string)
    requires Logged(posts, answers, tr, nowPosts, nowAnswers, 0)
    ensures Logged(posts, answers, tr, nowPosts, nowAnswers + [answer], 1)
    ensures var after := Trace(tr.posts, tr.answers + [answer], tr.heads + [head]);
            && Logged(posts, answers, after, nowPosts, nowAnswers + [answer], 0)
            && Logged(posts, answers, after, nowPosts, nowAnswers + [answer], 1)
  {
  }

  lemma LoggedNothing(posts: seq<Post>, answers: seq<Result<Export, Reject>>, heads: seq<string>)
    ensures Logged(posts, answers, Trace([], [], heads), posts, answers, 0)
    ensures Logged(posts, answers, Trace([], [], heads), posts, answers, 1)
  {
  }

  lemma TakenMeans(s: Services, proofId: string, answer: Result<Export, Reject>, head: Result<string, Outcome>)
    requires HeadTaken(s, proofId, answer, head)
    ensures head.Ok? ==> Computed(s, proofId, answer, head.value)
    ensures head.Err? ==>
            Unusable(s, proofId, answer, head.error) && (head.error.ChainUnusable? || head.error.ApiRefused?)
  {
  }

  method ReadHead(remote: Remote, ghost job: Job, ghost tr: Trace)
    returns (head: Result<string, Outcome>, ghost answer: Result<Export, Reject>)
    requires remote.Valid() && Waiting(remote.s, remote.proofId, job, tr)
    modifies remote`proof, remote`time, remote`answers
    ensures remote.Valid() && remote.posts == old(remote.posts) && remote.answers == old(remote.answers) + [answer]
    ensures HeadTaken(remote.s, remote.proofId, answer, head)
    ensures head.Ok? ==>
            Waiting(remote.s, remote.proofId, job, Trace(tr.posts, tr.answers + [answer], tr.heads + [head.value]))
    ensures head.Err? ==>
            && Unusable(remote.s, remote.proofId, answer, head.error)
            && (head.error.ChainUnusable? || head.error.ApiRefused?)
  {
    hide *;
    head := CurrentHead(remote);
    answer := remote.answers[|old(remote.answers)|];
    TakenMeans(remote.s, remote.proofId, answer, head);
    if head.Ok? {
      OneMoreHead(remote.s, remote.proofId, job, tr, answer, head.value);
    }
  }

  method PostOnce(remote: Remote, ghost job: Job, ghost tr: Trace, sub: Submission)
    returns (result: Result<Event, Reject>, ghost post: Post)
    requires remote.Valid() && Waiting(remote.s, remote.proofId, job, tr)
    requires SignedOn(remote.s, remote.proofId, job.sign, job.d, sub)
    requires |tr.heads| == |tr.posts| + 1 && sub.priorHead == Some(tr.heads[|tr.posts|])
    modifies remote`proof, remote`time, remote`posts
    ensures remote.Valid() && remote.posts == old(remote.posts) + [post] && post.result == result
    ensures var after := Trace(tr.posts + [post], tr.answers, tr.heads);
            && Traced(remote.s, remote.proofId, job, after)
            && (if result.Ok? then LastStored(after.posts, job.d, remote.proof, result.value)
                else NoneStored(after.posts))
            && (result == Err(HeadMismatch) ==> Waiting(remote.s, remote.proofId, job, after))
  {
    hide *;
    result := remote.Send(sub);
    post := remote.posts[|old(remote.posts)|];
    assert remote.posts == old(remote.posts) + [post];
    remote.LastPost();
    OneMorePost(remote.s, remote.proofId, job, tr, post);
    if result.Ok? {
      StoredOnce(remote.s, remote.proofId, job, tr, post);
    }
  }

  /** append_signed_event. */
  method AppendSignedEvent(remote: Remote, sign: string -> string, d: Draft, priorHead: Option<string>, retries: int)
    returns (outcome: Outcome, ghost tr: Trace)
    requires remote.Valid()
    modifies remote`proof, remote`time, remote`posts, remote`answers
    ensures remote.Valid() && Logged(old(remote.posts), old(remote.answers), tr, remote.posts, remote.answers, 1)
    ensures Traced(remote.s, remote.proofId, Job(sign, d, priorHead), tr)
    ensures retries < 0 <==> outcome == BadRetries
    ensures |tr.posts| <= (if retries < 0 then 0 else retries + 1)
    ensures Closing(d.kind) ==> |tr.posts| <= 1
    ensures if outcome.Stored? then LastStored(tr.posts, d, remote.proof, outcome.event) else NoneStored(tr.posts)
    ensures Justified(remote.s, remote.proofId, Job(sign, d, priorHead), retries, tr, remote.answers, outcome)
  {
    hide *;
    ghost var job := Job(sign, d, priorHead);
    tr := Trace([], [], if priorHead.Some? then [priorHead.value] else []);
    NothingTried(remote.s, remote.proofId, job);
    WaitingMeans(remote.s, remote.proofId, job, tr);
    LoggedNothing(remote.posts, remote.answers, tr.heads);
    if retries < 0 {
      JustifyRetries(remote.s, remote.proofId, job, retries, tr, remote.answers);
      return BadRetries, tr;
    }
    var head := priorHead;
    var attempt := 0;
    while true
      invariant remote.Valid() && Logged(old(remote.posts), old(remote.answers), tr, remote.posts, remote.answers, 0)
      invariant Logged(old(remote.posts), old(remote.answers), tr, remote.posts, remote.answers, 1)
      invariant Waiting(remote.s, remote.proofId, job, tr) && Traced(remote.s, remote.proofId, job, tr)
      invariant NoneStored(tr.posts)
      invariant 0 <= attempt <= retries && |tr.posts| == attempt && (attempt > 0 ==> !Closing(d.kind))
      invariant |tr.heads| == attempt + (if head.Some? then 1 else 0)
      invariant head.Some? ==> tr.heads[attempt] == head.value
      decreases retries - attempt
    {
      if head.None? {
        ghost var heard := remote.answers;
        var read, answer := ReadHead(remote, job, tr);
        LoggedAnswer(old(remote.posts), old(remote.answers), tr, remote.posts, heard, answer,
          if read.Ok? then read.value else "");
        if read.Err? {
          JustifyAnswer(remote.s, remote.proofId, job, retries, tr, remote.answers, answer, read.error);
          return read.error, tr;
        }
        tr := Trace(tr.posts, tr.answers + [answer], tr.heads + [read.value]);
        WaitingMeans(remote.s, remote.proofId, job, tr);
        head := Some(read.value);
      }
      var signed := Signed(remote.s, remote.proofId, sign, d, head.value);
      if signed.Err? {
        JustifyField(remote.s, remote.proofId, job, retries, tr, remote.answers);
        return BadEventField, tr;
      }
      SignedHead(remote.s, remote.proofId, sign, d, head.value);
      ghost var sent, heard := remote.posts, remote.answers;
      var result, post := PostOnce(remote, job, tr, signed.value);
      LoggedPost(old(remote.posts), old(remote.answers), tr, sent, heard, post);
      tr := Trace(tr.posts + [post], tr.answers, tr.heads);
      JustifyPost(remote.s, remote.proofId, job, retries, tr, remote.answers, post);
      if result.Ok? {
        return Stored(result.value), tr;
      }
      if result.error != HeadMismatch {
        return ApiRefused(result.error), tr;
      }
      var current, answer := ReadHead(remote, job, tr);
      LoggedAnswer(old(remote.posts), old(remote.answers), tr, remote.posts, heard, answer,
        if current.Ok? then current.value else "");
      if current.Err? {
        JustifyAnswer(remote.s, remote.proofId, job, retries, tr, remote.answers, answer, current.error);
        return current.error, tr;
      }
      tr := Trace(tr.posts, tr.answers + [answer], tr.heads + [current.value]);
      WaitingMeans(remote.s, remote.proofId, job, tr);
      if attempt >= retries || Closing(d.kind) {
        JustifyMoved(remote.s, remote.proofId, job, retries, tr, remote.answers);
        return HeadMoved(head.value, current.value), tr;
      }
      attempt := attempt + 1;
      head := Some(current.value);
    }
  }

  lemma JustifyRetries(s: Services, proofId: string, job: Job, retries: int, tr: Trace, answers: seq<Result<Export,
      Reject>>)
    requires retries < 0 && tr.posts == []
    ensures Justified(s, proofId, job, retries, tr, answers, BadRetries)
  {
  }

  lemma JustifyField(s: Services, proofId: string, job: Job, retries: int, tr: Trace, answers: seq<Result<Export,
      Reject>>)
    requires |tr.heads| == |tr.posts| + 1 && Signed(s, proofId, job.sign, job.d, tr.heads[|tr.posts|]).Err?
    ensures Justified(s, proofId, job, retries, tr, answers, BadEventField)
  {
  }

  lemma JustifyAnswer(s: Services, proofId: string, job: Job, retries: int, tr: Trace, answers: seq<Result<Export,
      Reject>>,
                      answer: Result<Export, Reject>, outcome: Outcome)
    requires Waiting(s, proofId, job, tr) && |tr.heads| == |tr.posts|
    requires answers != [] && answers[|answers| - 1] == answer && Unusable(s, proofId, answer, outcome)
    ensures Justified(s, proofId, job, retries, tr, answers, outcome)
  {
    hide Traced, NoneStored, EventLink;
  }

  lemma JustifyPost(s: Services, proofId: string, job: Job, retries: int, tr: Trace, answers: seq<Result<Export,
      Reject>>, post: Post)
    requires |tr.heads| == |tr.posts| && tr.posts != [] && tr.posts[|tr.posts| - 1] == post
    ensures post.result.Ok? ==> Justified(s, proofId, job, retries, tr, answers, Stored(post.result.value))
    ensures post.result.Err? && post.result.error != HeadMismatch ==>
            Justified(s, proofId, job, retries, tr, answers, ApiRefused(post.result.error))
  {
  }

  lemma JustifyMoved(s: Services, proofId: string, job: Job, retries: int, tr: Trace, answers: seq<Result<Export,
      Reject>>)
    requires Waiting(s, proofId, job, tr) && |tr.heads| == |tr.posts| + 1 >= 2
    requires |tr.posts| == retries + 1 || Closing(job.d.kind)
    ensures Justified(s, proofId, job, retries, tr, answers, HeadMoved(tr.heads[|tr.posts| - 1], tr.heads[|tr.posts|]))
  {
    hide Traced, NoneStored, Closing;
  }

  lemma WaitingMeans(s: Services, proofId: string, job: Job, tr: Trace)
    requires Waiting(s, proofId, job, tr)
    ensures Traced(s, proofId, job, tr) && NoneStored(tr.posts)
  {
  }

  lemma NothingTried(s: Services, proofId: string, job: Job)
    ensures Waiting(s, proofId, job, Trace([], [], if job.priorHead.Some? then [job.priorHead.value] else []))
  {
  }

  lemma OneMoreHead(s: Services, proofId: string, job: Job, tr: Trace, answer: Result<Export, Reject>, head: string)
    requires Waiting(s, proofId, job, tr) && Computed(s, proofId, answer, head)
    ensures Waiting(s, proofId, job, Trace(tr.posts, tr.answers + [answer], tr.heads + [head]))
  {
    hide Computed, Tried, NoneStored;
  }

  lemma OneMorePost(s: Services, proofId: string, job: Job, tr: Trace, post: Post)
    requires Waiting(s, proofId, job, tr) && SignedOn(s, proofId, job.sign, job.d, post.sub)
    requires |tr.heads| == |tr.posts| + 1 && post.sub.priorHead == Some(tr.heads[|tr.posts|])
    ensures Traced(s, proofId, job, Trace(tr.posts + [post], tr.answers, tr.heads))
    ensures Refused(post) ==> NoneStored(tr.posts + [post])
    ensures Refused(post) && post.result == Err(HeadMismatch) ==>
            Waiting(s, proofId, job, Trace(tr.posts + [post], tr.answers, tr.heads))
  {
    hide SignedOn, Refused, HeadsRead;
  }

  lemma SignedHead(s: Services, proofId: string, sign: string -> string, d: Draft, head: string)
    requires Signed(s, proofId, sign, d, head).Ok?
    ensures var sub := Signed(s, proofId, sign, d, head).value;
            SignedOn(s, proofId, sign, d, sub) && sub.priorHead == Some(head) && sub.nonce == d.nonce
  {
    hide BuildEventV4;
  }

  /** An accepted post with a prior head went to a version-4 proof, onto that head, and its nonce is new. */
  lemma StoredOnce(s: Services, proofId: string, job: Job, tr: Trace, post: Post)
    requires PostSound(s, proofId, post) && post.result.Ok? && SignedOn(s, proofId, job.sign, job.d, post.sub)
    requires Sound(s, proofId, post.after) && Waiting(s, proofId, job, tr)
    ensures LastStored(tr.posts + [post], job.d, post.after, post.result.value)
  {
    hide BuildEventV4, ProofSound, Precheck, LockedCheck, CreateEvent, OnlyEventWithNonce, NoneStored, Traced;
    assert (tr.posts + [post])[..|tr.posts|] == tr.posts;
    var before, e := post.before.value, post.result.value;
    AcceptedMeansV4(s, proofId, before.version, post.seen, post.sub);
    LockedCheckMeaning(s, proofId, before, post.sub);
    CreatedEventStamps(s, proofId, before.events, post.sub, e.eventId, e.createdAt);
    NoncesIdentify(s, proofId, post.after.value, |before.events|);
  }

  lemma AcceptedMeansV4(s: Services, proofId: string, version: string, seen: Status, sub: Submission)
    requires Precheck(s, proofId, version, seen, sub).None? && sub.priorHead.Some?
    ensures version == "4"
  {
    hide BuildEventV4, BuildEventV3, SignatureVerifies, ValidSignatureText, ValidDid;
  }

  lemma NoncesIdentify(s: Services, proofId: string, proof: Proof, k: nat)
    requires ProofSound(s, proofId, proof) && proof.version == "4" && k < |proof.events|
    ensures OnlyEventWithNonce(proof.events, proof.events[k])
  {
    hide AllPass, PositionOk, FromSchema, IsClosed, IsProofId;
    var events := proof.events;
    SequencesCount(s, proofId, "4", events, k);
    forall j | 0 <= j < |events| && j != k
      ensures events[j].nonce != events[k].nonce
    {
      if j < k {
        NoReplay(s, proofId, "4", events, j, k);
      } else {
        NoReplay(s, proofId, "4", events, k, j);
      }
    }
  }

  // ---- before and after the call ----

  function Lookup(st: State, proofId: string): Option<Proof> {
    if proofId in st.proofs then Some(st.proofs[proofId]) else None
  }

  /** Real writers are the well-behaved others assumed here: any interleaved run of any number of them. */
  lemma ConcurrentWritersEvolve(s: Services, st: State, moves: seq<Move>, proofId: string)
    requires Invariant(s, st) && Exec(s, st, moves).Some?
    ensures Evolves(s, proofId, Lookup(st, proofId), Lookup(Exec(s, st, moves).value, proofId))
  {
    hide ProofSound, PhaseSound, RequestsUnique, GrownFrom, Exec;
    EveryRunKeepsInvariant(s, st, moves);
    EveryRunOnlyGrows(s, st, moves);
  }

  /** Whatever others do later, the stored event stays the only one with its nonce. */
  lemma StoredForGood(s: Services, proofId: string, proof: Proof, e: Event, later: Option<Proof>)
    requires proof.version == "4" && OnlyEventWithNonce(proof.events, e) && Evolves(s, proofId, Some(proof), later)
    ensures later.Some? && OnlyEventWithNonce(later.value.events, e)
  {
    hide ProofSound, OnlyEventWithNonce;
    var k := PlaceOf(proof.events, e);
    assert later.value.events[k] == e;
    NoncesIdentify(s, proofId, later.value, k);
  }

  lemma PlaceOf(events: seq<Event>, e: Event) returns (k: nat)
    requires OnlyEventWithNonce(events, e)
    ensures k < |events| && events[k] == e
  {
    k :| 0 <= k < |events| && events[k] == e;
  }
}

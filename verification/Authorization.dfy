/** Who may append what to a proof: the creator, the delegates it named, and nobody else. */
module Authorization {
  import opened Prelude
  import opened ProofChain

  const MAX_DELEGATES := 32

  datatype Role = Creator | Delegate | Unauthorized

  datatype Reason =
    | NoCreator | NotDelegated | CreatorOnly | RequestCreatedNotAllowed
    | InvalidDelegateDid | InvalidDelegates | ResultAlreadyCreated

  datatype Decision = Decision(allowed: bool, role: Role, reason: Option<Reason>)

  /** What authorization looks at in an earlier event. */
  datatype Prior = Prior(kind: string, actor: string, payload: Payload, sequence: int)

  predicate CreatorOnlyType(kind: string) {
    kind == TASK_DELEGATED || Closing(kind)
  }

  predicate AllDids(s: Services, items: seq<Json>) {
    forall i :: 0 <= i < |items| ==> items[i].Text? && ValidDid(s, items[i].text)
  }

  predicate Distinct(items: seq<Json>) {
    forall i, j :: 0 <= i < j < |items| ==> items[i] != items[j]
  }

  function DelegatesFieldError(s: Services, payload: Payload): Option<Reason> {
    match Field(payload, "delegates")
    case None => None
    case Some(delegates) =>
      if !delegates.List? then Some(InvalidDelegates)
      else if |delegates.items| > MAX_DELEGATES then Some(InvalidDelegates)
      else if !AllDids(s, delegates.items) then Some(InvalidDelegateDid)
      else if !Distinct(delegates.items) then Some(InvalidDelegates)
      else None
  }

  /** The DIDs a payload's delegate list names; none if it has no list. */
  function Named(payload: Payload): set<string> {
    match Field(payload, "delegates")
    case Some(List(items)) => set i | 0 <= i < |items| && items[i].Text? :: items[i].text
    case _ => {}
  }

  function CreatorOf(prior: seq<Prior>): Option<string> {
    if prior == [] then None
    else if prior[0].kind != REQUEST_CREATED then None
    else if prior[0].sequence != 1 then None
    else if prior[0].actor == "" then None
    else Some(prior[0].actor)
  }

  /** What one earlier event delegates: only a well-formed task.delegated by the creator does. */
  function Granted(s: Services, creator: string, event: Prior): set<string> {
    if event.kind != TASK_DELEGATED || event.actor != creator then {}
    else if DelegatesFieldError(s, event.payload).Some? then {}
    else Named(event.payload)
  }

  function GrantedUpTo(s: Services, creator: string, prior: seq<Prior>, n: nat): set<string>
    requires n <= |prior|
  {
    if n <= 1 then {} else GrantedUpTo(s, creator, prior, n - 1) + Granted(s, creator, prior[n - 1])
  }

  function DelegatesOf(s: Services, prior: seq<Prior>): set<string> {
    match CreatorOf(prior)
    case None => {}
    case Some(creator) => GrantedUpTo(s, creator, prior, |prior|) - {creator}
  }

  method ComputeDelegates(s: Services, prior: seq<Prior>) returns (delegates: set<string>)
    ensures delegates == DelegatesOf(s, prior)
  {
    var creator := CreatorOf(prior);
    if creator.None? {
      return {};
    }
    var delegated: set<string> := {};
    for i := 1 to |prior|
      invariant delegated == GrantedUpTo(s, creator.value, prior, i)
    {
      var event := prior[i];
      if event.kind != TASK_DELEGATED || event.actor != creator.value {
        continue;
      }
      if DelegatesFieldError(s, event.payload).Some? {
        continue;
      }
      delegated := delegated + Named(event.payload);
    }
    delegates := delegated - {creator.value};
  }

  function RoleOf(s: Services, prior: seq<Prior>, creator: string, actor: string): Role {
    if actor == creator then Creator
    else if actor in DelegatesOf(s, prior) then Delegate
    else Unauthorized
  }

  function AuthorizeEvent(s: Services, prior: seq<Prior>, actor: string, kind: string, payload: Payload): Decision {
    match CreatorOf(prior)
    case None => Decision(false, Unauthorized, Some(NoCreator))
    case Some(creator) =>
      var role := RoleOf(s, prior, creator, actor);
      if kind == REQUEST_CREATED then Decision(false, role, Some(RequestCreatedNotAllowed))
      else if role == Unauthorized then Decision(false, role, Some(NotDelegated))
      else if CreatorOnlyType(kind) && role != Creator then Decision(false, role, Some(CreatorOnly))
      else if kind == TASK_DELEGATED && DelegatesFieldError(s, payload).Some? then
        Decision(false, role, DelegatesFieldError(s, payload))
      else if kind == TASK_DELEGATED && "delegates" in payload
              && |DelegatesOf(s, prior) + (Named(payload) - {creator})| > MAX_DELEGATES then
        Decision(false, role, Some(InvalidDelegates))
      else Decision(true, role, None)
  }

  function CheckSingleResult(prior: seq<Prior>, kind: string): Option<Reason> {
    if kind != RESULT_CREATED then None
    else if exists i :: 0 <= i < |prior| && prior[i].kind == RESULT_CREATED then Some(ResultAlreadyCreated)
    else None
  }

  /** The two rules together, as both the API and the verifier apply them. */
  predicate MayAppend(s: Services, prior: seq<Prior>, actor: string, kind: string, payload: Payload) {
    AuthorizeEvent(s, prior, actor, kind, payload).allowed && CheckSingleResult(prior, kind) == None
  }

  // ---- what one more event does to the delegates ----

  lemma {:induction false} GrantedPrefix(s: Services, creator: string, prior: seq<Prior>, event: Prior, n: nat)
    requires n <= |prior|
    ensures GrantedUpTo(s, creator, prior + [event], n) == GrantedUpTo(s, creator, prior, n)
  {
    if n > 1 {
      GrantedPrefix(s, creator, prior, event, n - 1);
    }
  }

  /** An appended event keeps the creator and adds exactly what it grants. */
  lemma DelegatesAfter(s: Services, prior: seq<Prior>, event: Prior)
    requires CreatorOf(prior).Some?
    ensures CreatorOf(prior + [event]) == CreatorOf(prior)
    ensures DelegatesOf(s, prior + [event])
            == DelegatesOf(s, prior) + (Granted(s, CreatorOf(prior).value, event) - {CreatorOf(prior).value})
  {
    hide Granted;
    GrantedPrefix(s, CreatorOf(prior).value, prior, event, |prior|);
  }

  /** Appending an authorized event keeps the delegates within bounds and never makes the creator one. */
  lemma DelegatesStayBounded(s: Services, prior: seq<Prior>, event: Prior)
    requires CreatorOf(prior).Some? && |DelegatesOf(s, prior)| <= MAX_DELEGATES
    requires AuthorizeEvent(s, prior, event.actor, event.kind, event.payload).allowed
    ensures |DelegatesOf(s, prior + [event])| <= MAX_DELEGATES
    ensures DelegatesOf(s, prior) <= DelegatesOf(s, prior + [event])
    ensures CreatorOf(prior).value !in DelegatesOf(s, prior + [event])
  {
    hide DelegatesFieldError, GrantedUpTo;
    DelegatesAfter(s, prior, event);
    var creator := CreatorOf(prior).value;
    if Granted(s, creator, event) == {} {
      assert DelegatesOf(s, prior + [event]) == DelegatesOf(s, prior);
    } else {
      assert Granted(s, creator, event) == Named(event.payload);
      NamedNeedsAList(event.payload);
    }
  }

  lemma NamedNeedsAList(payload: Payload)
    ensures Named(payload) != {} ==> "delegates" in payload
  {
  }

  // ---- what the decisions mean ----

  /** A delegate list is well formed exactly when it names at most 32 DIDs, all resolvable and all different;
      counting the names finds the duplicates. */
  lemma DelegateListMeaning(s: Services, payload: Payload)
    ensures DelegatesFieldError(s, payload).None? <==>
            "delegates" in payload ==>
              && payload["delegates"].List?
              && |payload["delegates"].items| == |Named(payload)| <= MAX_DELEGATES
              && forall did :: did in Named(payload) ==> ValidDid(s, did)
  {
    hide ValidDid;
    if "delegates" in payload && payload["delegates"].List? {
      var items := payload["delegates"].items;
      TextsCount(items);
      if forall did :: did in Named(payload) ==> ValidDid(s, did) {
        if |items| == |Named(payload)| {
          assert AllDids(s, items);
        }
      }
    }
  }

  function Texts(items: seq<Json>): set<string> {
    set i | 0 <= i < |items| && items[i].Text? :: items[i].text
  }

  predicate AllTexts(items: seq<Json>) {
    forall i :: 0 <= i < |items| ==> items[i].Text?
  }

  lemma {:induction false} TextsCount(items: seq<Json>)
    ensures |Texts(items)| <= |items|
    ensures |Texts(items)| == |items| <==> AllTexts(items) && Distinct(items)
    decreases |items|
  {
    hide Texts, AllTexts, Distinct;
    if items == [] {
      NoTexts();
    } else {
      var n := |items| - 1;
      assert items == items[..n] + [items[n]];
      TextsCount(items[..n]);
      TextsSnoc(items[..n], items[n]);
    }
  }

  lemma NoTexts()
    ensures Texts([]) == {} && AllTexts([]) && Distinct([])
  {
  }

  lemma TextsSnoc(items: seq<Json>, item: Json)
    ensures AllTexts(items + [item]) <==> AllTexts(items) && item.Text?
    ensures AllTexts(items + [item]) ==> (Distinct(items + [item]) <==> Distinct(items) && item.text !in Texts(items))
    ensures |Texts(items + [item])| == |Texts(items)| + if item.Text? && item.text !in Texts(items) then 1 else 0
  {
    hide Texts, Distinct;
    var longer := items + [item];
    assert longer[|items|] == item;
    assert forall i :: 0 <= i < |items| ==> longer[i] == items[i];
    TextsUnion(items, item);
    if item.Text? && item.text in Texts(items) {
      assert Texts(longer) == Texts(items);
    }
    if AllTexts(longer) {
      DistinctSnoc(items, item);
    }
  }

  lemma TextsUnion(items: seq<Json>, item: Json)
    ensures Texts(items + [item]) == Texts(items) + if item.Text? then {item.text} else {}
  {
    var longer := items + [item];
    assert longer[|items|] == item;
    forall did | did in Texts(items)
      ensures did in Texts(longer)
    {
      var i :| 0 <= i < |items| && items[i].Text? && items[i].text == did;
      assert longer[i].text == did;
    }
  }

  lemma DistinctSnoc(items: seq<Json>, item: Json)
    requires AllTexts(items) && item.Text?
    ensures Distinct(items + [item]) <==> Distinct(items) && item.text !in Texts(items)
  {
    var longer := items + [item];
    assert longer[|items|] == item;
    assert forall i :: 0 <= i < |items| ==> longer[i] == items[i];
    if item.text in Texts(items) {
      var i :| 0 <= i < |items| && items[i].Text? && items[i].text == item.text;
      assert longer[i] == longer[|items|];
    } else {
      assert forall i :: 0 <= i < |items| ==> items[i].text in Texts(items);
    }
  }

  /** Who may append what, exactly: the creator anything but a second request, delegates anything but that and
      the creator's own kinds; a delegation must be well formed and leave at most 32 delegates. */
  lemma AuthorizedExactly(s: Services, prior: seq<Prior>, event: Prior)
    ensures AuthorizeEvent(s, prior, event.actor, event.kind, event.payload).allowed <==>
            && CreatorOf(prior).Some? && event.kind != REQUEST_CREATED
            && (|| event.actor == CreatorOf(prior).value
                || (event.actor in DelegatesOf(s, prior) && !CreatorOnlyType(event.kind)))
            && (event.kind == TASK_DELEGATED ==>
                  && DelegatesFieldError(s, event.payload).None?
                  && ("delegates" in event.payload ==> |DelegatesOf(s, prior + [event])| <= MAX_DELEGATES))
  {
    hide DelegatesFieldError, DelegatesOf;
    if CreatorOf(prior).Some? {
      DelegatesAfter(s, prior, event);
      KindsDiffer();
    }
  }
}

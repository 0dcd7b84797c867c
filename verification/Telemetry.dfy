/**
 What the gateway reads out of an agent's JSON-RPC envelopes: the facts of a call and the text an agent
 produced, from either wire version.  Version 0.3 tags an object with `kind`; version 1.0 wraps it in
 the field of its `oneof`.  Object members are keyed by an enumeration of the names the reader knows.
 */
module Telemetry {
  import opened Wrappers
  import opened Text
  import opened Splitting
  import opened FirstSeen

  datatype Name =
    | Jsonrpc | ResultField | ErrorField | Params | Kind | Id | TaskId | ContextId | MessageId | Status | State | Final
    | Message | Parts | TextField | Artifact | Artifacts | ArtifactId | Append
    | Task | StatusUpdate | ArtifactUpdate
    | Other(name: string)

  datatype Json =
    | Null
    | Bool(b: bool)
    | Num(text: string)
    | Str(s: string)
    | Arr(items: seq<Json>)
    | Obj(fields: map<Name, Json>)
  {
    function Get(key: Name): Option<Json> {
      if Obj? && key in fields then Some(fields[key]) else None
    }

    /** A non-empty string member. */
    function StrField(key: Name): Option<string> {
      match Get(key)
      case Some(Str(s)) => if s == "" then None else Some(s)
      case _ => None
    }

    predicate IsTrue(key: Name) {
      Get(key) == Some(Bool(true))
    }
  }

  // ----- task states -----

  const UNKNOWN: string := "unknown"
  const TASK_STATES: seq<string> :=
    ["submitted", "working", "input-required", "completed", "canceled", "failed", "rejected", "auth-required"]
  const STREAM_ENDING_STATES: seq<string> :=
    ["completed", "canceled", "failed", "rejected", "input-required", "auth-required"]

  function DashChar(c: char): char {
    if c == '_' then '-' else c
  }

  function Dashed(s: string): (r: string)
    ensures |r| == |s|
  {
    seq(|s|, i requires 0 <= i < |s| => DashChar(s[i]))
  }

  function StripPrefix(s: string, prefix: string): string {
    if prefix <= s then s[|prefix|..] else s
  }

  function NormalizeTaskState(state: string): (r: string)
    ensures r in TASK_STATES || r == UNKNOWN
  {
    var candidate := Dashed(Lower(StripPrefix(state, "TASK_STATE_")));
    if candidate in TASK_STATES then candidate else UNKNOWN
  }

  // ----- reaching the payload -----

  function ObjectAt(v: Json, key: Name): Option<Json> {
    match v.Get(key)
    case Some(Obj(fields)) => Some(Obj(fields))
    case _ => None
  }

  function UnwrapPayload(result: Json): Json {
    if result.Get(Kind).Some? then result
    else if ObjectAt(result, Task).Some? then ObjectAt(result, Task).value
    else if ObjectAt(result, Message).Some? then ObjectAt(result, Message).value
    else if ObjectAt(result, StatusUpdate).Some? then ObjectAt(result, StatusUpdate).value
    else if ObjectAt(result, ArtifactUpdate).Some? then ObjectAt(result, ArtifactUpdate).value
    else result
  }

  function Payload(response: Json): Option<Json> {
    match response.Get(ResultField)
    case Some(result) => Some(UnwrapPayload(result))
    case None => None
  }

  predicate IsStreamEnd(event: Json) {
    match Payload(event)
    case None => false
    case Some(payload) =>
      payload.IsTrue(Final)
      || match payload.Get(Status)
         case None => false
         case Some(status) =>
           match status.StrField(State)
           case None => false
           case Some(state) => NormalizeTaskState(state) in STREAM_ENDING_STATES
  }

  // ----- call facts -----

  datatype Facts = Facts(taskId: string, contextId: string, taskState: string)

  const NO_FACTS: Facts := Facts("", "", "")

  function Or(value: Option<string>, fallback: string): string {
    match value case Some(s) => s case None => fallback
  }

  /** What one response envelope adds to the facts of a call. */
  function FactsAfter(f: Facts, response: Json): Facts {
    match Payload(response)
    case None => f
    case Some(payload) =>
      var contextId := Or(payload.StrField(ContextId), f.contextId);
      var taskId := Or(payload.StrField(TaskId), f.taskId);
      match payload.Get(Status)
      case None => Facts(taskId, contextId, f.taskState)
      case Some(status) =>
        Facts(Or(payload.StrField(Id), taskId), contextId,
              match status.StrField(State) case Some(state) => NormalizeTaskState(state) case None => f.taskState)
  }

  /** What a request says before the upstream is contacted: the id is only a fallback for the task. */
  function FactsOfRequest(f: Facts, request: Json): Facts {
    match request.Get(Params)
    case None => f
    case Some(params) =>
      var message := match params.Get(Message) case Some(m) => m case None => Null;
      var taskId := Or(params.StrField(TaskId), Or(message.StrField(TaskId), f.taskId));
      var contextId := Or(params.StrField(ContextId), Or(message.StrField(ContextId), f.contextId));
      Facts(if taskId == "" then Or(params.StrField(Id), taskId) else taskId, contextId, f.taskState)
  }

  /** The task that the request itself names, beside the id. */
  function NamedTask(params: Json): Option<string> {
    match params.StrField(TaskId)
    case Some(id) => Some(id)
    case None => match params.Get(Message) case Some(message) => message.StrField(TaskId) case None => None
  }

  /** The context that the request names. */
  function NamedContext(params: Json): Option<string> {
    match params.StrField(ContextId)
    case Some(id) => Some(id)
    case None => match params.Get(Message) case Some(message) => message.StrField(ContextId) case None => None
  }

  /**
   What a request is taken to be about: the task that it names, else the one known before; the id of its
   parameters exactly when there is neither. Nothing known is ever erased.
   */
  lemma RequestNamesItsTask(f: Facts, request: Json, params: Json)
    requires request.Get(Params) == Some(params)
    ensures var r := FactsOfRequest(f, request);
            && (NamedTask(params).Some? ==> r.taskId == NamedTask(params).value)
            && (NamedTask(params).None? && f.taskId != "" ==> r.taskId == f.taskId)
            && (NamedTask(params).None? && f.taskId == "" ==> r.taskId == Or(params.StrField(Id), ""))
            && (NamedContext(params).Some? ==> r.contextId == NamedContext(params).value)
            && (NamedContext(params).None? ==> r.contextId == f.contextId)
            && (f.taskId != "" ==> r.taskId != "") && (f.contextId != "" ==> r.contextId != "")
            && r.taskState == f.taskState
  {
  }

  function WithId(request: map<Name, Json>, params: map<Name, Json>, id: Json): Json {
    Obj(request[Params := Obj(params[Id := id])])
  }

  /**
   Requests that differ in the id alone are read alike exactly when a task is named or known, or the ids say the same.
   */
  lemma IdIsAFallback(f: Facts, request: map<Name, Json>, params: map<Name, Json>, id: Json, other: Json)
    ensures FactsOfRequest(f, WithId(request, params, id)) == FactsOfRequest(f, WithId(request, params, other)) <==>
              || NamedTask(Obj(params)).Some? || f.taskId != ""
              || Obj(map[Id := id]).StrField(Id) == Obj(map[Id := other]).StrField(Id)
  {
    IdIsAside(request, params, id);
    IdIsAside(request, params, other);
    hide NamedTask, NamedContext;
    RequestNamesItsTask(f, WithId(request, params, id), Obj(params[Id := id]));
    RequestNamesItsTask(f, WithId(request, params, other), Obj(params[Id := other]));
  }

  lemma IdIsAside(request: map<Name, Json>, params: map<Name, Json>, id: Json)
    ensures var p := Obj(params[Id := id]);
            && WithId(request, params, id).Get(Params) == Some(p) && NamedTask(p) == NamedTask(Obj(params))
            && p.StrField(Id) == Obj(map[Id := id]).StrField(Id)
            && NamedContext(p) == NamedContext(Obj(params))
  {
  }

  class A2aCallFacts {
    var taskId: string
    var contextId: string
    var taskState: string

    function Read(): Facts
      reads this
    {
      Facts(taskId, contextId, taskState)
    }

    constructor ()
      ensures Read() == NO_FACTS
    {
      taskId, contextId, taskState := "", "", "";
    }

    method SetTaskId(value: Option<string>)
      modifies this`taskId
      ensures taskId == Or(value, old(taskId))
    {
      if value.Some? { taskId := value.value; }
    }

    method SetContextId(value: Option<string>)
      modifies this`contextId
      ensures contextId == Or(value, old(contextId))
    {
      if value.Some? { contextId := value.value; }
    }

    method ObserveRequest(request: Json)
      modifies this
      ensures Read() == FactsOfRequest(old(Read()), request)
    {
      var params := request.Get(Params);
      if params.None? { return; }
      var message := params.value.Get(Message);
      if message.Some? {
        SetTaskId(message.value.StrField(TaskId));
        SetContextId(message.value.StrField(ContextId));
      }
      SetTaskId(params.value.StrField(TaskId));
      SetContextId(params.value.StrField(ContextId));
      if taskId == "" {
        SetTaskId(params.value.StrField(Id));
      }
    }

    method ObserveResult(response: Json)
      modifies this
      ensures Read() == FactsAfter(old(Read()), response)
    {
      var result := response.Get(ResultField);
      if result.None? { return; }
      var payload := UnwrapPayload(result.value);
      SetContextId(payload.StrField(ContextId));
      SetTaskId(payload.StrField(TaskId));
      var status := payload.Get(Status);
      if status.Some? {
        SetTaskId(payload.StrField(Id));
        var state := status.value.StrField(State);
        if state.Some? { taskState := NormalizeTaskState(state.value); }
      }
    }
  }

  // ----- the text an agent produced -----

  /** The caller's bounded append. */
  type Push = (string, string) -> string

  function CollectParts(parts: seq<Json>, buf: string, push: Push): string {
    if parts == [] then buf
    else
      var next := match parts[0].StrField(TextField)
                  case Some(text) => push(if buf == "" then buf else push(buf, "\n"), text)
                  case None => buf;
      CollectParts(parts[1..], next, push)
  }

  function PartsOf(owner: Json): seq<Json> {
    match owner.Get(Parts)
    case Some(Arr(items)) => items
    case _ => []
  }

  function PartText(owner: Json, buf: string, push: Push): string {
    CollectParts(PartsOf(owner), buf, push)
  }

  method CollectPartText(owner: Json, buf: string, push: Push) returns (r: string)
    ensures r == PartText(owner, buf, push)
  {
    r := buf;
    var parts := PartsOf(owner);
    for i := 0 to |parts|
      invariant CollectParts(parts[i..], r, push) == PartText(owner, buf, push)
    {
      assert parts[i..][0] == parts[i] && parts[i..][1..] == parts[i + 1..];
      var text := parts[i].StrField(TextField);
      if text.Some? {
        if r != "" { r := push(r, "\n"); }
        r := push(r, text.value);
      }
    }
  }

  function ArtifactsText(artifacts: seq<Json>, buf: string, push: Push): string {
    if artifacts == [] then buf else ArtifactsText(artifacts[1..], PartText(artifacts[0], buf, push), push)
  }

  /** The answer segment: the artifact being streamed, and the text so far. */
  datatype Answer = Answer(artifactId: string, text: string)

  const NO_ANSWER: Answer := Answer("", "")

  function AnswerAfter(a: Answer, response: Json, push: Push): Answer {
    match Payload(response)
    case None => a
    case Some(payload) =>
      match payload.Get(Artifact)
      case Some(artifact) =>
        var said := PartText(artifact, "", push);
        var id := Or(artifact.StrField(ArtifactId), "");
        if said == "" then a
        else if id == a.artifactId then
          a.(text := push(if payload.IsTrue(Append) then a.text else "", said))
        else
          Answer(id, push(if a.text == "" then "" else push(a.text, "\n"), said))
      case None =>
        match payload.Get(Artifacts)
        case Some(Arr(artifacts)) =>
          var said := ArtifactsText(artifacts, "", push);
          if said == "" then a else Answer("", push("", said))
        case _ => a
  }

  /** What the agent says about the task in one envelope; empty when it says nothing. */
  function Words(response: Json, push: Push): string {
    match Payload(response)
    case None => ""
    case Some(payload) =>
      if payload.Get(Artifact).Some? then ""
      else
        var own := PartText(payload, "", push);
        match payload.Get(Status)
        case Some(status) =>
          (match status.Get(Message) case Some(message) => PartText(message, own, push) case None => own)
        case None => own
  }

  function StatementAfter(statement: string, response: Json, push: Push): string {
    var said := Words(response, push);
    if said == "" then statement else push("", said)
  }

  class ResultText {
    var artifactId: string
    var artifacts: string
    var statement: string

    function CurrentAnswer(): Answer
      reads this
    {
      Answer(artifactId, artifacts)
    }

    constructor ()
      ensures CurrentAnswer() == NO_ANSWER && statement == ""
    {
      artifactId, artifacts, statement := "", "", "";
    }

    /** The two segments move independently: neither new value depends on the other old one. */
    method Observe(response: Json, push: Push)
      modifies this
      ensures CurrentAnswer() == AnswerAfter(old(CurrentAnswer()), response, push)
      ensures statement == StatementAfter(old(statement), response, push)
    {
      var result := response.Get(ResultField);
      if result.None? { return; }
      var payload := UnwrapPayload(result.value);
      var artifact := payload.Get(Artifact);
      if artifact.Some? {
        var said := CollectPartText(artifact.value, "", push);
        if said == "" { return; }
        var id := Or(artifact.value.StrField(ArtifactId), "");
        if id == artifactId {
          if !payload.IsTrue(Append) { artifacts := ""; }
        } else {
          artifactId := id;
          if artifacts != "" { artifacts := push(artifacts, "\n"); }
        }
        artifacts := push(artifacts, said);
        return;
      }
      var snapshot := payload.Get(Artifacts);
      if snapshot.Some? && snapshot.value.Arr? {
        var said := "";
        var items := snapshot.value.items;
        for i := 0 to |items|
          invariant ArtifactsText(items[i..], said, push) == ArtifactsText(items, "", push)
          invariant CurrentAnswer() == old(CurrentAnswer()) && statement == old(statement)
        {
          assert items[i..][0] == items[i] && items[i..][1..] == items[i + 1..];
          said := CollectPartText(items[i], said, push);
        }
        if said != "" {
          artifacts, artifactId := "", "";
          artifacts := push(artifacts, said);
        }
      }
      var said := CollectPartText(payload, "", push);
      var status := payload.Get(Status);
      if status.Some? {
        var message := status.value.Get(Message);
        if message.Some? { said := CollectPartText(message.value, said, push); }
      }
      if said != "" {
        statement := push("", said);
      }
    }

    /** The whole text, of both segments: a line between them exactly when neither is empty. */
    function Joined(): (r: string)
      reads this
      ensures artifacts <= r && |statement| <= |r| && r[|r| - |statement|..] == statement
      ensures r == "" <==> artifacts == "" && statement == ""
    {
      if artifacts == "" then statement
      else if statement == "" then artifacts
      else artifacts + "\n" + statement
    }
  }

  // ----- the two wire versions -----

  datatype TaskStateKind =
    Submitted | Working | InputRequired | Completed | Canceled | Failed | Rejected | AuthRequired | Unspecified

  function Wire03(state: TaskStateKind): string {
    match state
    case Submitted => "submitted"
    case Working => "working"
    case InputRequired => "input-required"
    case Completed => "completed"
    case Canceled => "canceled"
    case Failed => "failed"
    case Rejected => "rejected"
    case AuthRequired => "auth-required"
    case Unspecified => "unknown"
  }

  function Wire10(state: TaskStateKind): string {
    "TASK_STATE_" + Loud(state)
  }

  function Loud(state: TaskStateKind): string {
    match state
    case Submitted => "SUBMITTED"
    case Working => "WORKING"
    case InputRequired => "INPUT_REQUIRED"
    case Completed => "COMPLETED"
    case Canceled => "CANCELED"
    case Failed => "FAILED"
    case Rejected => "REJECTED"
    case AuthRequired => "AUTH_REQUIRED"
    case Unspecified => "UNSPECIFIED"
  }

  /** Letter by letter, the first name lower-cased and dashed is the second. */
  predicate Spells(loud: string, lowered: string) {
    && |loud| == |lowered| > 0 && lowered[0] != 'T'
    && forall i | 0 <= i < |loud| ::
         DashChar(LowerChar(loud[i])) == lowered[i] && DashChar(LowerChar(lowered[i])) == lowered[i]
  }

  lemma NormalizesTo(loud: string, lowered: string)
    requires Spells(loud, lowered)
    ensures Dashed(Lower(StripPrefix("TASK_STATE_" + loud, "TASK_STATE_"))) == lowered
    ensures Dashed(Lower(StripPrefix(lowered, "TASK_STATE_"))) == lowered
  {
  }

  lemma KnownStates()
    ensures forall state: TaskStateKind :: state != Unspecified ==> Wire03(state) in TASK_STATES
    ensures "unspecified" !in TASK_STATES && UNKNOWN !in TASK_STATES
  {
  }

  lemma OngoingStatesSpell()
    ensures Spells(Loud(Submitted), Wire03(Submitted)) && Spells(Loud(Working), Wire03(Working))
  {
  }

  lemma PausedStatesSpell()
    ensures Spells(Loud(InputRequired), Wire03(InputRequired)) && Spells(Loud(AuthRequired), Wire03(AuthRequired))
  {
  }

  lemma EndStatesSpell()
    ensures Spells(Loud(Completed), Wire03(Completed)) && Spells(Loud(Canceled), Wire03(Canceled))
    ensures Spells(Loud(Failed), Wire03(Failed)) && Spells(Loud(Rejected), Wire03(Rejected))
  {
  }

  /** Both spellings of a state are recorded as the 0.3 one. */
  lemma StateSpellingsAgree(state: TaskStateKind)
    ensures NormalizeTaskState(Wire03(state)) == Wire03(state)
    ensures NormalizeTaskState(Wire10(state)) == Wire03(state)
  {
    hide StripPrefix, Lower, Dashed, TASK_STATES, Spells, Loud;
    KnownStates();
    OngoingStatesSpell();
    PausedStatesSpell();
    EndStatesSpell();
    if state == Unspecified {
      UnspecifiedSpells();
      NormalizesTo("UNSPECIFIED", "unspecified");
      NormalizesTo("UNKNOWN", "unknown");
    } else {
      NormalizesTo(Loud(state), Wire03(state));
    }
  }

  lemma UnspecifiedSpells()
    ensures Spells("UNSPECIFIED", "unspecified") && Spells("UNKNOWN", "unknown") && Loud(Unspecified) == "UNSPECIFIED"
  {
  }

  // ----- the payloads of the protocol, and their encodings -----

  datatype Part = TextPart(text: string) | OtherPart(content: Json)
  datatype AgentMessage = AgentMessage(messageId: string, contextId: string, taskId: string, parts: seq<Part>)
  datatype ArtifactBody = ArtifactBody(artifactId: string, parts: seq<Part>)
  datatype TaskStatus = TaskStatus(state: TaskStateKind, message: Option<AgentMessage>)

  datatype WirePayload =
    | TaskPayload(id: string, contextId: string, status: TaskStatus, artifacts: seq<ArtifactBody>)
    | MessagePayload(message: AgentMessage)
    | StatusPayload(taskId: string, contextId: string, status: TaskStatus, final: bool)
    | ArtifactPayload(taskId: string, contextId: string, artifact: ArtifactBody, append: bool)

  /** Version 1.0 may leave out every member that has its type's default value, or none. */
  datatype Version = V03 | V10(omits: bool)

  predicate Omits(v: Version) {
    v.V10? && v.omits
  }

  function Member(key: Name, s: string, v: Version): map<Name, Json> {
    if Omits(v) && s == "" then map[] else map[key := Str(s)]
  }

  function PartsMember(parts: seq<Part>, v: Version): map<Name, Json> {
    if Omits(v) && parts == [] then map[] else map[Parts := Arr(EncodeParts(parts, v))]
  }

  /** The unspecified state is the default of its enumeration. */
  function StateMember(state: TaskStateKind, v: Version): map<Name, Json> {
    if Omits(v) && state == Unspecified then map[]
        else map[State := Str(if v.V03? then Wire03(state) else Wire10(state))]
  }

  function Tag(v: Version, kind: string): map<Name, Json> {
    if v.V03? then map[Kind := Str(kind)] else map[]
  }

  function EncodePart(part: Part, v: Version): Json {
    match part
    case TextPart(text) => Obj(Tag(v, "text") + map[TextField := Str(text)])
    case OtherPart(content) => Obj(Tag(v, "file") + map[Other("file") := content])
  }

  function EncodeParts(parts: seq<Part>, v: Version): (r: seq<Json>)
    ensures |r| == |parts|
  {
    seq(|parts|, i requires 0 <= i < |parts| => EncodePart(parts[i], v))
  }

  function EncodeMessage(m: AgentMessage, v: Version): Json {
    Obj(Tag(v, "message") + Member(MessageId, m.messageId, v) + Member(ContextId, m.contextId, v)
        + Member(TaskId, m.taskId, v)
        + PartsMember(m.parts, v))
  }

  function EncodeArtifact(a: ArtifactBody, v: Version): Json {
    Obj(Member(ArtifactId, a.artifactId, v) + PartsMember(a.parts, v))
  }

  function EncodeArtifacts(artifacts: seq<ArtifactBody>, v: Version): seq<Json> {
    seq(|artifacts|, i requires 0 <= i < |artifacts| => EncodeArtifact(artifacts[i], v))
  }

  function EncodeStatus(s: TaskStatus, v: Version): Json {
    Obj(StateMember(s.state, v)
        + if s.message.Some? then map[Message := EncodeMessage(s.message.value, v)] else map[])
  }

  function EncodePayload(p: WirePayload, v: Version): Json {
    match p
    case TaskPayload(id, contextId, status, artifacts) =>
      Obj(Tag(v, "task") + Member(Id, id, v) + Member(ContextId, contextId, v) + map[Status := EncodeStatus(status, v)]
          + if Omits(v) && artifacts == [] then map[] else map[Artifacts := Arr(EncodeArtifacts(artifacts, v))])
    case MessagePayload(message) => EncodeMessage(message, v)
    case StatusPayload(taskId, contextId, status, final) =>
      Obj(Tag(v, "status-update") + Member(TaskId, taskId, v) + Member(ContextId, contextId, v)
          + map[Status := EncodeStatus(status, v)]
          + if v.V03? then map[Final := Bool(final)] else map[])
    case ArtifactPayload(taskId, contextId, artifact, append) =>
      Obj(Tag(v, "artifact-update") + Member(TaskId, taskId, v) + Member(ContextId, contextId, v)
          + map[Artifact := EncodeArtifact(artifact, v)]
          + if Omits(v) && !append then map[] else map[Append := Bool(append)])
  }

  function Wrapper(p: WirePayload): Name {
    match p
    case TaskPayload(_, _, _, _) => Task
    case MessagePayload(_) => Message
    case StatusPayload(_, _, _, _) => StatusUpdate
    case ArtifactPayload(_, _, _, _) => ArtifactUpdate
  }

  /** The whole response: the object itself in version 0.3, wrapped in its member's name in 1.0. */
  function EncodeResponse(p: WirePayload, v: Version): Json {
    Obj(map[Jsonrpc := Str("2.0"),
            ResultField := if v.V03? then EncodePayload(p, v) else Obj(map[Wrapper(p) := EncodePayload(p, v)])])
  }

  function EncodeStream(ps: seq<WirePayload>, v: Version): seq<Json> {
    seq(|ps|, i requires 0 <= i < |ps| => EncodeResponse(ps[i], v))
  }

  lemma TaggedIn03(p: WirePayload, v: Version)
    ensures EncodePayload(p, v).Obj? && (v.V03? ==> EncodePayload(p, v).Get(Kind).Some?)
  {
    hide EncodeStatus, EncodeArtifact, EncodeArtifacts, EncodeParts, Member;
  }

  /** Either way the payload is reached. */
  lemma PayloadReached(p: WirePayload, v: Version)
    ensures Payload(EncodeResponse(p, v)) == Some(EncodePayload(p, v))
  {
    var e := EncodePayload(p, v);
    TaggedIn03(p, v);
    hide EncodePayload;
    if v.V10? {
      var result := Obj(map[Wrapper(p) := e]);
      assert result.Get(Kind).None?;
      assert ObjectAt(result, Wrapper(p)) == Some(e);
    }
  }


  function Given(s: string): Option<string> {
    if s == "" then None else Some(s)
  }

  lemma TaskIds(p: WirePayload, v: Version)
    requires p.TaskPayload?
    ensures var e := EncodePayload(p, v);
            e.StrField(ContextId) == Given(p.contextId) && e.StrField(TaskId) == None && e.StrField(Id) == Given(p.id)
  {
    hide EncodeStatus, EncodeArtifacts;
  }

  lemma TaskMembers(p: WirePayload, v: Version)
    requires p.TaskPayload?
    ensures var e := EncodePayload(p, v);
            && e.Get(Status) == Some(EncodeStatus(p.status, v))
            && !e.IsTrue(Final) && e.Get(Parts) == None && e.Get(Artifact) == None
            && e.Get(Artifacts) == (if Omits(v) && p.artifacts == [] then None
               else Some(Arr(EncodeArtifacts(p.artifacts, v))))
  {
    hide EncodeStatus, EncodeArtifacts;
  }

  lemma MessageIds(m: AgentMessage, v: Version)
    ensures var e := EncodeMessage(m, v);
            e.StrField(ContextId) == Given(m.contextId) && e.StrField(TaskId) == Given(m.taskId)
  {
    hide EncodeParts;
  }

  /** A request that sends a message continues the message's own task and context, in either version. */
  lemma SentMessageIsRead(f: Facts, m: AgentMessage, v: Version)
    ensures FactsOfRequest(f, Obj(map[Params := Obj(map[Message := EncodeMessage(m, v)])])) ==
              Facts(if m.taskId != "" then m.taskId else f.taskId,
                    if m.contextId != "" then m.contextId else f.contextId, f.taskState)
  {
    hide EncodeMessage;
    MessageIds(m, v);
  }

  lemma MessageMembers(m: AgentMessage, v: Version)
    ensures var e := EncodeMessage(m, v);
            && e.Get(Status) == None && !e.IsTrue(Final) && e.Get(Artifact) == None && e.Get(Artifacts) == None
            && PartsOf(e) == EncodeParts(m.parts, v)
  {
    hide *;
    MessageOthers(m, v);
    MessageParts(m, v);
  }

  lemma MessageOthers(m: AgentMessage, v: Version)
    ensures var e := EncodeMessage(m, v);
            e.Get(Status) == None && !e.IsTrue(Final) && e.Get(Artifact) == None && e.Get(Artifacts) == None
  {
    hide EncodeParts;
    var e := EncodeMessage(m, v);
    assert e.Obj? && e.fields.Keys <= {Kind, MessageId, ContextId, TaskId, Parts};
  }

  lemma MessageParts(m: AgentMessage, v: Version)
    ensures PartsOf(EncodeMessage(m, v)) == EncodeParts(m.parts, v)
  {
    hide EncodeParts;
  }

  lemma StatusIds(p: WirePayload, v: Version)
    requires p.StatusPayload?
    ensures var e := EncodePayload(p, v);
            e.StrField(ContextId) == Given(p.contextId) && e.StrField(TaskId) == Given(p.taskId)
                && e.StrField(Id) == None
  {
    hide EncodeStatus;
  }

  lemma StatusMembers(p: WirePayload, v: Version)
    requires p.StatusPayload?
    ensures var e := EncodePayload(p, v);
            && e.Get(Status) == Some(EncodeStatus(p.status, v))
            && e.IsTrue(Final) == (v.V03? && p.final) && e.Get(Parts) == None && e.Get(Artifact) == None
            && e.Get(Artifacts) == None
  {
    hide EncodeStatus;
  }

  lemma ArtifactIds(p: WirePayload, v: Version)
    requires p.ArtifactPayload?
    ensures var e := EncodePayload(p, v);
            e.StrField(ContextId) == Given(p.contextId) && e.StrField(TaskId) == Given(p.taskId)
  {
    hide EncodeArtifact;
  }

  lemma ArtifactMembers(p: WirePayload, v: Version)
    requires p.ArtifactPayload?
    ensures var e := EncodePayload(p, v);
            && e.Get(Status) == None && !e.IsTrue(Final)
            && e.Get(Artifact) == Some(EncodeArtifact(p.artifact, v)) && e.IsTrue(Append) == p.append
  {
    hide EncodeArtifact;
  }

  lemma StatusParts(s: TaskStatus, v: Version)
    ensures var e := EncodeStatus(s, v);
            && e.StrField(State) ==
                 (if Omits(v) && s.state == Unspecified then None
                     else Some(if v.V03? then Wire03(s.state) else Wire10(s.state)))
            && e.Get(Message) == if s.message.Some? then Some(EncodeMessage(s.message.value, v)) else None
  {
    hide EncodeMessage;
  }

  /** An omitted state leaves the one recorded before. */
  function StateRead(before: string, state: TaskStateKind, v: Version): string {
    if Omits(v) && state == Unspecified then before else Wire03(state)
  }

  /** What any reader of call facts sees of a payload, whichever version carried it. */
  lemma FactsRead(f: Facts, p: WirePayload, v: Version)
    ensures FactsAfter(f, EncodeResponse(p, v)) ==
              match p
              case TaskPayload(id, contextId, status, _) =>
                Facts(Or(Given(id), f.taskId), Or(Given(contextId), f.contextId),
                    StateRead(f.taskState, status.state, v))
              case MessagePayload(m) =>
                Facts(Or(Given(m.taskId), f.taskId), Or(Given(m.contextId), f.contextId), f.taskState)
              case StatusPayload(taskId, contextId, status, _) =>
                Facts(Or(Given(taskId), f.taskId), Or(Given(contextId), f.contextId),
                    StateRead(f.taskState, status.state, v))
              case ArtifactPayload(taskId, contextId, _, _) =>
                Facts(Or(Given(taskId), f.taskId), Or(Given(contextId), f.contextId), f.taskState)
  {
    hide EncodeResponse, Payload, NormalizeTaskState, Wire03, Wire10, EncodePayload, EncodeMessage, EncodeStatus,
         EncodeArtifact, Json.StrField, Json.Get, Json.IsTrue, Given;
    PayloadReached(p, v);
    match p {
      case TaskPayload(_, _, status, _) =>
        TaskIds(p, v);
        TaskMembers(p, v);
        StatusParts(status, v);
        StateSpellingsAgree(status.state);
      case MessagePayload(m) =>
        MessageIsPayload(m, v);
        MessageIds(m, v);
        MessageMembers(m, v);
      case StatusPayload(_, _, status, _) =>
        StatusIds(p, v);
        StatusMembers(p, v);
        StatusParts(status, v);
        StateSpellingsAgree(status.state);
      case ArtifactPayload(_, _, _, _) =>
        ArtifactIds(p, v);
        ArtifactMembers(p, v);
    }
  }

  lemma MessageIsPayload(m: AgentMessage, v: Version)
    ensures EncodePayload(MessagePayload(m), v) == EncodeMessage(m, v)
  {
  }

  lemma PartTextField(part: Part, v: Version)
    ensures EncodePart(part, v).StrField(TextField) == if part.TextPart? then Given(part.text) else None
  {
  }

  lemma {:induction false} PartsReadAlike(parts: seq<Part>, buf: string, push: Push, v: Version)
    ensures CollectParts(EncodeParts(parts, V03), buf, push) == CollectParts(EncodeParts(parts, v), buf, push)
  {
    hide EncodePart, Json.StrField;
    if parts != [] {
      PartTextField(parts[0], V03);
      PartTextField(parts[0], v);
      assert EncodeParts(parts, V03)[1..] == EncodeParts(parts[1..], V03);
      assert EncodeParts(parts, v)[1..] == EncodeParts(parts[1..], v);
      var next := match EncodePart(parts[0], V03).StrField(TextField)
                  case Some(text) => push(if buf == "" then buf else push(buf, "\n"), text)
                  case None => buf;
      PartsReadAlike(parts[1..], next, push, v);
    }
  }

  lemma ArtifactFields(a: ArtifactBody, v: Version)
    ensures EncodeArtifact(a, v).StrField(ArtifactId) == Given(a.artifactId)
    ensures PartsOf(EncodeArtifact(a, v)) == EncodeParts(a.parts, v)
  {
    hide EncodeParts;
  }

  lemma ArtifactTextAlike(a: ArtifactBody, buf: string, push: Push, v: Version)
    ensures PartText(EncodeArtifact(a, V03), buf, push) == PartText(EncodeArtifact(a, v), buf, push)
  {
    hide EncodeArtifact, CollectParts, Json.Get, EncodeParts;
    ArtifactFields(a, V03);
    ArtifactFields(a, v);
    PartsReadAlike(a.parts, buf, push, v);
  }

  lemma {:induction false} ArtifactsTextAlike(artifacts: seq<ArtifactBody>, buf: string, push: Push, v: Version)
    ensures ArtifactsText(EncodeArtifacts(artifacts, V03), buf, push)
            == ArtifactsText(EncodeArtifacts(artifacts, v), buf, push)
  {
    hide EncodeArtifact, PartText;
    if artifacts != [] {
      assert EncodeArtifacts(artifacts, V03)[1..] == EncodeArtifacts(artifacts[1..], V03);
      assert EncodeArtifacts(artifacts, v)[1..] == EncodeArtifacts(artifacts[1..], v);
      ArtifactTextAlike(artifacts[0], buf, push, v);
      ArtifactsTextAlike(artifacts[1..], PartText(EncodeArtifact(artifacts[0], V03), buf, push), push, v);
    }
  }

  lemma MessageTextAlike(m: AgentMessage, buf: string, push: Push, v: Version)
    ensures PartText(EncodeMessage(m, V03), buf, push) == PartText(EncodeMessage(m, v), buf, push)
  {
    hide EncodeMessage, CollectParts, Json.Get, EncodeParts;
    MessageMembers(m, V03);
    MessageMembers(m, v);
    PartsReadAlike(m.parts, buf, push, v);
  }

  lemma StatusTextAlike(s: TaskStatus, buf: string, push: Push, v: Version)
    ensures match (EncodeStatus(s, V03).Get(Message), EncodeStatus(s, v).Get(Message))
            case (Some(m), Some(n)) => PartText(m, buf, push) == PartText(n, buf, push)
            case (None, None) => true
            case _ => false
  {
    hide EncodeStatus, PartText;
    StatusParts(s, V03);
    StatusParts(s, v);
    if s.message.Some? { MessageTextAlike(s.message.value, buf, push, v); }
  }

  lemma WordsAlike(p: WirePayload, push: Push, v: Version)
    ensures Words(EncodeResponse(p, V03), push) == Words(EncodeResponse(p, v), push)
  {
    hide EncodeResponse, Payload, EncodePayload, EncodeMessage, EncodeStatus, CollectParts, Json.Get;
    PayloadReached(p, V03);
    PayloadReached(p, v);
    match p {
      case TaskPayload(_, _, status, _) =>
        TaskMembers(p, V03);
        TaskMembers(p, v);
        NoParts(push);
        StatusTextAlike(status, "", push, v);
      case MessagePayload(m) =>
        MessageIsPayload(m, V03);
        MessageIsPayload(m, v);
        MessageMembers(m, V03);
        MessageMembers(m, v);
        MessageTextAlike(m, "", push, v);
      case StatusPayload(_, _, status, _) =>
        StatusMembers(p, V03);
        StatusMembers(p, v);
        NoParts(push);
        StatusTextAlike(status, "", push, v);
      case ArtifactPayload(_, _, _, _) =>
        ArtifactMembers(p, V03);
        ArtifactMembers(p, v);
    }
  }

  lemma NoParts(push: Push)
    ensures CollectParts([], "", push) == "" && ArtifactsText([], "", push) == ""
  {
  }

  lemma AnswerAlike(a: Answer, p: WirePayload, push: Push, v: Version)
    ensures AnswerAfter(a, EncodeResponse(p, V03), push) == AnswerAfter(a, EncodeResponse(p, v), push)
  {
    hide EncodeResponse, Payload, EncodePayload, EncodeMessage, EncodeArtifact, EncodeArtifacts, PartText,
         ArtifactsText, Json.Get, Json.StrField, Json.IsTrue;
    PayloadReached(p, V03);
    PayloadReached(p, v);
    match p {
      case TaskPayload(_, _, _, artifacts) =>
        TaskMembers(p, V03);
        TaskMembers(p, v);
        ArtifactsTextAlike(artifacts, "", push, v);
        NoArtifacts(push);
      case MessagePayload(m) =>
        MessageIsPayload(m, V03);
        MessageIsPayload(m, v);
        MessageMembers(m, V03);
        MessageMembers(m, v);
      case StatusPayload(_, _, _, _) =>
        StatusMembers(p, V03);
        StatusMembers(p, v);
      case ArtifactPayload(_, _, artifact, _) =>
        ArtifactMembers(p, V03);
        ArtifactMembers(p, v);
        ArtifactFields(artifact, V03);
        ArtifactFields(artifact, v);
        ArtifactTextAlike(artifact, "", push, v);
    }
  }

  lemma NoArtifacts(push: Push)
    ensures ArtifactsText(EncodeArtifacts([], V03), "", push) == ""
  {
  }

  // ----- whole streams -----

  function FactsOver(f: Facts, responses: seq<Json>): Facts
    decreases |responses|
  {
    if responses == [] then f else FactsOver(FactsAfter(f, responses[0]), responses[1..])
  }

  function AnswerOver(a: Answer, responses: seq<Json>, push: Push): Answer
    decreases |responses|
  {
    if responses == [] then a else AnswerOver(AnswerAfter(a, responses[0], push), responses[1..], push)
  }

  function StatementOver(statement: string, responses: seq<Json>, push: Push): string
    decreases |responses|
  {
    if responses == [] then statement
    else StatementOver(StatementAfter(statement, responses[0], push), responses[1..], push)
  }

  /** A stream's answer and statement do not depend on the version that carried it. */
  lemma {:induction false} TextsReadAlike(ps: seq<WirePayload>, a: Answer, statement: string, push: Push, v: Version)
    ensures AnswerOver(a, EncodeStream(ps, V03), push) == AnswerOver(a, EncodeStream(ps, v), push)
    ensures StatementOver(statement, EncodeStream(ps, V03), push) == StatementOver(statement, EncodeStream(ps, v), push)
  {
    hide EncodeResponse, AnswerAfter, Words;
    if ps != [] {
      assert EncodeStream(ps, V03)[1..] == EncodeStream(ps[1..], V03);
      assert EncodeStream(ps, v)[1..] == EncodeStream(ps[1..], v);
      var r := EncodeResponse(ps[0], V03);
      AnswerAlike(a, ps[0], push, v);
      WordsAlike(ps[0], push, v);
      TextsReadAlike(ps[1..], AnswerAfter(a, r, push), StatementAfter(statement, r, push), push, v);
    }
  }

  /** Neither do the ids of the call. */
  lemma {:induction false} IdsReadAlike(ps: seq<WirePayload>, f: Facts, g: Facts, v: Version)
    requires f.taskId == g.taskId && f.contextId == g.contextId
    ensures var one, other := FactsOver(f, EncodeStream(ps, V03)), FactsOver(g, EncodeStream(ps, v));
            one.taskId == other.taskId && one.contextId == other.contextId
  {
    hide EncodeResponse, FactsAfter;
    if ps != [] {
      assert EncodeStream(ps, V03)[1..] == EncodeStream(ps[1..], V03);
      assert EncodeStream(ps, v)[1..] == EncodeStream(ps[1..], v);
      FactsRead(f, ps[0], V03);
      FactsRead(g, ps[0], v);
      IdsReadAlike(ps[1..], FactsAfter(f, EncodeResponse(ps[0], V03)), FactsAfter(g, EncodeResponse(ps[0], v)), v);
    }
  }

  function StateIn(p: WirePayload): Option<TaskStateKind> {
    match p
    case TaskPayload(_, _, status, _) => Some(status.state)
    case StatusPayload(_, _, status, _) => Some(status.state)
    case _ => None
  }

  /** The last state that the stream gives, and the last one that is not the unspecified one. */
  function LastState(ps: seq<WirePayload>): Option<TaskStateKind> {
    if ps == [] then None
    else match LastState(ps[1..]) case Some(state) => Some(state) case None => StateIn(ps[0])
  }

  function LastSpecified(ps: seq<WirePayload>): Option<TaskStateKind> {
    if ps == [] then None
    else match LastSpecified(ps[1..]) case Some(state) => Some(state)
         case None => if StateIn(ps[0]) == Some(Unspecified) then None else StateIn(ps[0])
  }

  lemma {:induction false} StateOfStream(ps: seq<WirePayload>, f: Facts, v: Version)
    ensures FactsOver(f, EncodeStream(ps, v)).taskState ==
              match if Omits(v) then LastSpecified(ps) else LastState(ps)
              case Some(state) => Wire03(state)
              case None => f.taskState
  {
    hide EncodeResponse, FactsAfter, Wire03;
    if ps != [] {
      assert EncodeStream(ps, v)[1..] == EncodeStream(ps[1..], v);
      FactsRead(f, ps[0], v);
      StateOfStream(ps[1..], FactsAfter(f, EncodeResponse(ps[0], v)), v);
    }
  }

  lemma {:induction false} LastOfBoth(ps: seq<WirePayload>)
    ensures LastState(ps).Some? && LastState(ps) != Some(Unspecified) ==> LastSpecified(ps) == LastState(ps)
    ensures LastState(ps).None? ==> LastSpecified(ps).None?
    ensures LastSpecified(ps) != Some(Unspecified)
  {
    if ps != [] { LastOfBoth(ps[1..]); }
  }

  lemma StateNames(state: TaskStateKind)
    ensures Wire03(state) == UNKNOWN <==> state == Unspecified
  {
  }

  /**
   A stream reads the same in both versions, texts and ids always. The recorded state agrees too, unless version
   1.0 leaves out an unspecified state that comes last and something else was recorded before.
   */
  lemma VersionsReadAlike(ps: seq<WirePayload>, f: Facts, a: Answer, statement: string, push: Push, v: Version)
    ensures AnswerOver(a, EncodeStream(ps, V03), push) == AnswerOver(a, EncodeStream(ps, v), push)
    ensures StatementOver(statement, EncodeStream(ps, V03), push) == StatementOver(statement, EncodeStream(ps, v), push)
    ensures var one, other := FactsOver(f, EncodeStream(ps, V03)), FactsOver(f, EncodeStream(ps, v));
            && one.taskId == other.taskId && one.contextId == other.contextId
            && (one.taskState == other.taskState <==>
                  !Omits(v) || LastState(ps) != Some(Unspecified)
                      || (LastSpecified(ps) == None && f.taskState == UNKNOWN))
  {
    hide EncodeStream, AnswerOver, StatementOver, FactsOver, LastState, LastSpecified, Wire03;
    TextsReadAlike(ps, a, statement, push, v);
    IdsReadAlike(ps, f, f, v);
    StateOfStream(ps, f, V03);
    StateOfStream(ps, f, v);
    LastOfBoth(ps);
    StateNames(Unspecified);
    if LastSpecified(ps).Some? { StateNames(LastSpecified(ps).value); }
  }

  predicate EndsStream(state: TaskStateKind) {
    state !in {Submitted, Working, Unspecified}
  }

  lemma EndingStates(state: TaskStateKind)
    ensures Wire03(state) in STREAM_ENDING_STATES <==> EndsStream(state)
    ensures !EndsStream(Unspecified)
  {
  }

  /** When an event ends its stream: version 0.3 can also say so outright. */
  lemma StreamEndRead(p: WirePayload, v: Version)
    ensures IsStreamEnd(EncodeResponse(p, v)) <==>
              match p
              case TaskPayload(_, _, status, _) => EndsStream(status.state)
              case StatusPayload(_, _, status, final) => EndsStream(status.state) || (v.V03? && final)
              case _ => false
  {
    hide EncodeResponse, Payload, NormalizeTaskState, Wire03, Wire10, EncodePayload, EncodeMessage, EncodeStatus,
         EncodeArtifact, Json.StrField, Json.Get, Json.IsTrue, STREAM_ENDING_STATES, EndsStream;
    PayloadReached(p, v);
    match p {
      case TaskPayload(_, _, status, _) =>
        TaskMembers(p, v);
        StatusParts(status, v);
        StateSpellingsAgree(status.state);
        EndingStates(status.state);
      case MessagePayload(m) =>
        MessageIsPayload(m, v);
        MessageMembers(m, v);
      case StatusPayload(_, _, status, _) =>
        StatusMembers(p, v);
        StatusParts(status, v);
        StateSpellingsAgree(status.state);
        EndingStates(status.state);
      case ArtifactPayload(_, _, _, _) =>
        ArtifactMembers(p, v);
    }
  }

  /** The two versions end a stream at the same event exactly when `final` is never set on an ongoing state. */
  lemma VersionsEndAlike(p: WirePayload, omits: bool)
    ensures IsStreamEnd(EncodeResponse(p, V03)) == IsStreamEnd(EncodeResponse(p, V10(omits))) <==>
              (p.StatusPayload? && p.final ==> EndsStream(p.status.state))
  {
    hide EncodeResponse, IsStreamEnd, EndsStream;
    StreamEndRead(p, V03);
    StreamEndRead(p, V10(omits));
  }

  /** The recorded state stays empty or one of nine labels, whatever the upstream sends. */
  lemma {:induction false} RecordedStateIsBounded(f: Facts, responses: seq<Json>)
    requires f.taskState == "" || f.taskState == UNKNOWN || f.taskState in TASK_STATES
    ensures var state := FactsOver(f, responses).taskState; state == "" || state == UNKNOWN || state in TASK_STATES
    decreases |responses|
  {
    hide NormalizeTaskState, TASK_STATES, Payload, UnwrapPayload;
    if responses != [] { RecordedStateIsBounded(FactsAfter(f, responses[0]), responses[1..]); }
  }

  // ----- the two segments -----

  /** The statement is the last one made: earlier ones, and events that say nothing, leave no trace. */
  lemma {:induction false} StatementIsTheLast(statement: string, responses: seq<Json>, last: nat, push: Push)
    requires last < |responses| && Words(responses[last], push) != ""
    requires forall i | last < i < |responses| :: Words(responses[i], push) == ""
    ensures StatementOver(statement, responses, push) == push("", Words(responses[last], push))
    decreases |responses|
  {
    hide Words;
    if last == 0 {
      SilentTail(StatementAfter(statement, responses[0], push), responses[1..], push);
    } else {
      StatementIsTheLast(StatementAfter(statement, responses[0], push), responses[1..], last - 1, push);
    }
  }

  lemma {:induction false} SilentTail(statement: string, responses: seq<Json>, push: Push)
    requires forall i | 0 <= i < |responses| :: Words(responses[i], push) == ""
    ensures StatementOver(statement, responses, push) == statement
    decreases |responses|
  {
    hide Words;
    if responses != [] { SilentTail(statement, responses[1..], push); }
  }

  /** An event that carries artifact text; every other one leaves any answer alone. */
  predicate BearsAnswer(response: Json, push: Push) {
    match Payload(response)
    case None => false
    case Some(payload) =>
      match payload.Get(Artifact)
      case Some(artifact) => PartText(artifact, "", push) != ""
      case None =>
        match payload.Get(Artifacts)
        case Some(Arr(artifacts)) => ArtifactsText(artifacts, "", push) != ""
        case _ => false
  }

  lemma OthersLeaveTheAnswer(a: Answer, response: Json, push: Push)
    requires !BearsAnswer(response, push)
    ensures AnswerAfter(a, response, push) == a
  {
    hide PartText, ArtifactsText, Payload;
  }

  function AnswerBearing(responses: seq<Json>, push: Push): seq<Json> {
    if responses == [] then []
    else (if BearsAnswer(responses[0], push) then [responses[0]] else []) + AnswerBearing(responses[1..], push)
  }

  lemma {:induction false} AnswerFromBearersAlone(a: Answer, responses: seq<Json>, push: Push)
    ensures AnswerOver(a, responses, push) == AnswerOver(a, AnswerBearing(responses, push), push)
    decreases |responses|
  {
    hide BearsAnswer, AnswerAfter;
    if responses != [] {
      var rest := AnswerBearing(responses[1..], push);
      if BearsAnswer(responses[0], push) {
        assert ([responses[0]] + rest)[1..] == rest;
        AnswerFromBearersAlone(AnswerAfter(a, responses[0], push), responses[1..], push);
      } else {
        assert AnswerBearing(responses, push) == rest;
        OthersLeaveTheAnswer(a, responses[0], push);
        AnswerFromBearersAlone(a, responses[1..], push);
      }
    }
  }

  /** Two streams with the same artifact-bearing events, however interleaved with others, give one answer. */
  lemma SilentEventsDoNotMatter(a: Answer, one: seq<Json>, other: seq<Json>, push: Push)
    requires AnswerBearing(one, push) == AnswerBearing(other, push)
    ensures AnswerOver(a, one, push) == AnswerOver(a, other, push)
  {
    AnswerFromBearersAlone(a, one, push);
    AnswerFromBearersAlone(a, other, push);
  }

  /** A task snapshot with artifact text: what came before it cannot be told from the answer any more. */
  lemma SnapshotErasesTheAnswer(a: Answer, b: Answer, responses: seq<Json>, at: nat, push: Push)
    requires at < |responses| && BearsAnswer(responses[at], push)
    requires Payload(responses[at]).value.Get(Artifact) == None
    ensures AnswerOver(a, responses, push) == AnswerOver(b, responses[at..], push)
    decreases at
  {
    hide PartText, ArtifactsText, Payload;
    if at == 0 {
      assert responses[0..] == responses;
      assert AnswerAfter(a, responses[0], push) == AnswerAfter(b, responses[0], push);
    } else {
      assert responses[1..][at - 1..] == responses[at..];
      SnapshotErasesTheAnswer(AnswerAfter(a, responses[0], push), b, responses[1..], at - 1, push);
    }
  }

  // ----- artifact chunks, with an append that never truncates -----

  function Unbounded(): Push {
    (buf, more) => buf + more
  }

  /** The text of an artifact's parts, one line each. */
  function Said(parts: seq<Part>): string {
    CollectParts(EncodeParts(parts, V03), "", Unbounded())
  }

  predicate IsChunk(p: WirePayload) {
    p.ArtifactPayload? && Said(p.artifact.parts) != ""
  }

  function ChunkOf(id: string, text: string): WirePayload {
    ArtifactPayload("", "", ArtifactBody(id, [TextPart(text)]), false)
  }

  lemma OnePartSaid(text: string)
    ensures Said([TextPart(text)]) == text
  {
    hide EncodePart, Json.StrField;
    PartTextField(TextPart(text), V03);
    var parts := EncodeParts([TextPart(text)], V03);
    assert parts == [EncodePart(TextPart(text), V03)];
    assert parts[1..] == [] && parts[0] == EncodePart(TextPart(text), V03);
    assert Unbounded()("", text) == text;
    var next := if text == "" then "" else text;
    assert CollectParts(parts, "", Unbounded()) == CollectParts(parts[1..], next, Unbounded());
  }

  // ----- what each payload says, from its own texts -----

  /** The texts of the text parts, empty ones left out. */
  function TextsIn(parts: seq<Part>): seq<string> {
    if parts == [] then []
    else (if parts[0].TextPart? && parts[0].text != "" then [parts[0].text] else []) + TextsIn(parts[1..])
  }

  function TextsInAll(artifacts: seq<ArtifactBody>): seq<string> {
    if artifacts == [] then [] else TextsIn(artifacts[0].parts) + TextsInAll(artifacts[1..])
  }

  /** The texts that a payload says about its task: those of its status message, or its own if it is a message. */
  function Statements(p: WirePayload): seq<string> {
    match p
    case TaskPayload(_, _, status, _) => if status.message.Some? then TextsIn(status.message.value.parts) else []
    case StatusPayload(_, _, status, _) => if status.message.Some? then TextsIn(status.message.value.parts) else []
    case MessagePayload(m) => TextsIn(m.parts)
    case ArtifactPayload(_, _, _, _) => []
  }

  /** These texts after a buffer, line by line. */
  function Onto(buf: string, texts: seq<string>): string {
    if texts == [] then buf else if buf == "" then Join(texts, "\n") else buf + "\n" + Join(texts, "\n")
  }

  lemma OntoMore(buf: string, text: string, texts: seq<string>)
    requires text != ""
    ensures Onto(buf, [text] + texts) == Onto(if buf == "" then text else buf + "\n" + text, texts)
  {
    assert ([text] + texts)[1..] == texts;
    if texts != [] { assert Join([text] + texts, "\n") == text + "\n" + Join(texts, "\n"); }
  }

  lemma {:induction false} TextsAreNotEmpty(parts: seq<Part>)
    ensures forall i | 0 <= i < |TextsIn(parts)| :: TextsIn(parts)[i] != ""
  {
    if parts != [] { TextsAreNotEmpty(parts[1..]); }
  }

  lemma {:induction false} OntoAll(buf: string, one: seq<string>, more: seq<string>)
    requires forall i | 0 <= i < |one| :: one[i] != ""
    ensures Onto(buf, one + more) == Onto(Onto(buf, one), more)
    decreases |one|
  {
    hide Onto;
    if one == [] {
      assert [] + more == more;
      NothingOnto(buf);
    } else {
      var next := if buf == "" then one[0] else buf + "\n" + one[0];
      assert one + more == [one[0]] + (one[1..] + more) && one == [one[0]] + one[1..];
      OntoMore(buf, one[0], one[1..] + more);
      OntoMore(buf, one[0], one[1..]);
      OntoAll(next, one[1..], more);
    }
  }

  lemma NothingOnto(buf: string)
    ensures Onto(buf, []) == buf
  {
  }

  lemma {:induction false} CollectedIs(parts: seq<Part>, buf: string, v: Version)
    ensures CollectParts(EncodeParts(parts, v), buf, Unbounded()) == Onto(buf, TextsIn(parts))
    decreases |parts|
  {
    hide EncodePart, Json.StrField, Onto;
    NothingOnto(buf);
    if parts != [] {
      PartTextField(parts[0], v);
      assert EncodeParts(parts, v)[1..] == EncodeParts(parts[1..], v);
      if parts[0].TextPart? && parts[0].text != "" {
        var text := parts[0].text;
        var next := Unbounded()(if buf == "" then buf else Unbounded()(buf, "\n"), text);
        assert next == if buf == "" then text else buf + "\n" + text;
        CollectedIs(parts[1..], next, v);
        OntoMore(buf, text, TextsIn(parts[1..]));
      } else {
        assert TextsIn(parts) == TextsIn(parts[1..]);
        CollectedIs(parts[1..], buf, v);
      }
    }
  }

  lemma {:induction false} ArtifactsCollectedAre(artifacts: seq<ArtifactBody>, buf: string, v: Version)
    ensures ArtifactsText(EncodeArtifacts(artifacts, v), buf, Unbounded()) == Onto(buf, TextsInAll(artifacts))
    decreases |artifacts|
  {
    hide EncodeArtifact, Onto, CollectParts, EncodeParts;
    NothingOnto(buf);
    if artifacts != [] {
      var texts := TextsIn(artifacts[0].parts);
      assert EncodeArtifacts(artifacts, v)[1..] == EncodeArtifacts(artifacts[1..], v);
      ArtifactFields(artifacts[0], v);
      CollectedIs(artifacts[0].parts, buf, v);
      ArtifactsCollectedAre(artifacts[1..], Onto(buf, texts), v);
      TextsAreNotEmpty(artifacts[0].parts);
      OntoAll(buf, texts, TextsInAll(artifacts[1..]));
    }
  }

  lemma OntoNothing(texts: seq<string>)
    ensures Onto("", texts) == Lines(texts)
  {
  }

  lemma MessageSays(m: AgentMessage, v: Version)
    ensures PartText(EncodeMessage(m, v), "", Unbounded()) == Lines(TextsIn(m.parts))
  {
    hide EncodeMessage, CollectParts, EncodeParts, Onto, Lines;
    MessageMembers(m, v);
    CollectedIs(m.parts, "", v);
    OntoNothing(TextsIn(m.parts));
  }

  lemma StatusSays(s: TaskStatus, v: Version)
    ensures (match EncodeStatus(s, v).Get(Message)
             case Some(m) => PartText(m, "", Unbounded())
             case None => "") == Lines(if s.message.Some? then TextsIn(s.message.value.parts) else [])
  {
    hide EncodeStatus, PartText;
    StatusParts(s, v);
    if s.message.Some? { MessageSays(s.message.value, v); }
  }

  lemma WordsAre(p: WirePayload, v: Version)
    ensures Words(EncodeResponse(p, v), Unbounded()) == Lines(Statements(p))
  {
    hide EncodeResponse, Payload, EncodePayload, EncodeMessage, EncodeStatus, CollectParts, Json.Get, Lines;
    PayloadReached(p, v);
    NoParts(Unbounded());
    OntoNothing([]);
    match p {
      case TaskPayload(_, _, status, _) =>
        TaskMembers(p, v);
        StatusSays(status, v);
      case MessagePayload(m) =>
        MessageIsPayload(m, v);
        MessageMembers(m, v);
        MessageSays(m, v);
      case StatusPayload(_, _, status, _) =>
        StatusMembers(p, v);
        StatusSays(status, v);
      case ArtifactPayload(_, _, _, _) =>
        ArtifactMembers(p, v);
    }
  }

  lemma {:induction false} LinesOfTexts(texts: seq<string>)
    requires forall i | 0 <= i < |texts| :: texts[i] != ""
    ensures Lines(texts) == "" <==> texts == []
  {
  }

  lemma {:induction false} AllTextsAreNotEmpty(artifacts: seq<ArtifactBody>)
    ensures forall i | 0 <= i < |TextsInAll(artifacts)| :: TextsInAll(artifacts)[i] != ""
  {
    if artifacts != [] {
      TextsAreNotEmpty(artifacts[0].parts);
      AllTextsAreNotEmpty(artifacts[1..]);
    }
  }

  lemma StatementsAreNotEmpty(p: WirePayload)
    ensures Lines(Statements(p)) == "" <==> Statements(p) == []
  {
    hide Lines;
    var texts := match p
                 case TaskPayload(_, _, status, _) => if status.message.Some? then status.message.value.parts else []
                 case StatusPayload(_, _, status, _) => if status.message.Some? then status.message.value.parts else []
                 case MessagePayload(m) => m.parts
                 case ArtifactPayload(_, _, _, _) => [];
    TextsAreNotEmpty(texts);
    LinesOfTexts(TextsIn(texts));
  }

  /**
   What one event does to the statement, in either version: a task or a status update states the texts of its status
   message, a message its own, line by line; an artifact update states nothing, and where nothing is stated the old
   statement stays.
   */
  lemma EventStates(statement: string, p: WirePayload, v: Version)
    ensures StatementAfter(statement, EncodeResponse(p, v), Unbounded()) ==
              if Statements(p) == [] then statement else Join(Statements(p), "\n")
  {
    hide EncodeResponse, Words, Statements;
    WordsAre(p, v);
    StatementsAreNotEmpty(p);
  }

  /**
   What one event does to the answer, in either version: a task with artifact texts replaces it by all of them, line
   by line in the artifacts' order; an artifact with texts replaces its own earlier text, or continues it, or opens
   a new line under another id; any other event leaves it.
   */
  lemma EventAnswers(a: Answer, p: WirePayload, v: Version)
    ensures AnswerAfter(a, EncodeResponse(p, v), Unbounded()) ==
              match p
              case TaskPayload(_, _, _, artifacts) =>
                if TextsInAll(artifacts) == [] then a else Answer("", Join(TextsInAll(artifacts), "\n"))
              case ArtifactPayload(_, _, artifact, append) =>
                var texts, id := TextsIn(artifact.parts), artifact.artifactId;
                if texts == [] then a
                else if id != a.artifactId then Answer(id, Onto(a.text, texts))
                else Answer(id, (if append then a.text else "") + Join(texts, "\n"))
              case _ => a
  {
    hide EncodeResponse, Payload, EncodePayload, EncodeMessage, EncodeArtifact, EncodeArtifacts, EncodeParts,
         CollectParts, ArtifactsText, Json.Get, Json.StrField, Json.IsTrue;
    PayloadReached(p, v);
    match p {
      case TaskPayload(_, _, _, artifacts) =>
        TaskMembers(p, v);
        ArtifactsCollectedAre(artifacts, "", v);
        AllTextsAreNotEmpty(artifacts);
        LinesOfTexts(TextsInAll(artifacts));
      case MessagePayload(m) =>
        MessageIsPayload(m, v);
        MessageMembers(m, v);
      case StatusPayload(_, _, _, _) =>
        StatusMembers(p, v);
      case ArtifactPayload(_, _, artifact, _) =>
        ArtifactMembers(p, v);
        ArtifactFields(artifact, v);
        CollectedIs(artifact.parts, "", v);
        TextsAreNotEmpty(artifact.parts);
        LinesOfTexts(TextsIn(artifact.parts));
    }
  }

  /** What the last event that states anything states. */
  function LastStatement(ps: seq<WirePayload>): seq<string> {
    if ps == [] then []
    else if LastStatement(ps[1..]) != [] then LastStatement(ps[1..]) else Statements(ps[0])
  }

  /** After a stream the statement is the last one made in it. */
  lemma {:induction false} StreamStates(statement: string, ps: seq<WirePayload>, v: Version)
    ensures StatementOver(statement, EncodeStream(ps, v), Unbounded()) ==
              if LastStatement(ps) == [] then statement else Join(LastStatement(ps), "\n")
    decreases |ps|
  {
    hide EncodeResponse, StatementAfter, Statements;
    if ps != [] {
      assert EncodeStream(ps, v)[1..] == EncodeStream(ps[1..], v);
      EventStates(statement, ps[0], v);
      StreamStates(StatementAfter(statement, EncodeResponse(ps[0], v), Unbounded()), ps[1..], v);
    }
  }

  /** What a chunk of any parts does to the answer. */
  lemma ChunkRead(a: Answer, p: WirePayload, v: Version)
    requires IsChunk(p)
    ensures var id, said := p.artifact.artifactId, Said(p.artifact.parts);
            AnswerAfter(a, EncodeResponse(p, v), Unbounded()) ==
              if id == a.artifactId then Answer(id, (if p.append then a.text else "") + said)
              else Answer(id, (if a.text == "" then "" else a.text + "\n") + said)
  {
    hide EncodeResponse, Payload, EncodePayload, EncodeArtifact, CollectParts, EncodeParts, Json.Get, Json.StrField,
         Json.IsTrue;
    PayloadReached(p, v);
    ArtifactMembers(p, v);
    ArtifactFields(p.artifact, v);
    PartsReadAlike(p.artifact.parts, "", Unbounded(), v);
  }

  /**
   A chunk keeps everything the agent said before it exactly when it belongs to another artifact than
   the last chunk, or is marked as appended, or happens to repeat the whole answer so far.
   */
  lemma ChunkKeepsTheAnswer(a: Answer, p: WirePayload, v: Version)
    requires IsChunk(p)
    ensures a.text <= AnswerAfter(a, EncodeResponse(p, v), Unbounded()).text <==>
              p.artifact.artifactId != a.artifactId || p.append || a.text <= Said(p.artifact.parts)
  {
    hide EncodeResponse, AnswerAfter, Said;
    ChunkRead(a, p, v);
    assert "" + Said(p.artifact.parts) == Said(p.artifact.parts);
  }

  /**
   Sending a chunk again changes nothing exactly when it is not marked as appended and the answer before it was
   empty or belonged to the same artifact.
   */
  lemma ResendingIsHarmless(a: Answer, p: WirePayload, v: Version)
    requires IsChunk(p)
    ensures var once := AnswerAfter(a, EncodeResponse(p, v), Unbounded());
            AnswerAfter(once, EncodeResponse(p, v), Unbounded()) == once <==>
              !p.append && (a.text == "" || p.artifact.artifactId == a.artifactId)
  {
    hide EncodeResponse, AnswerAfter, Said;
    var said := Said(p.artifact.parts);
    ChunkRead(a, p, v);
    var once := AnswerAfter(a, EncodeResponse(p, v), Unbounded());
    ChunkRead(once, p, v);
    assert "" + said == said;
    assert |once.text + said| > |once.text|;
    assert |a.text + "\n" + said| > |said|;
  }

  // ----- streams of whole artifacts -----

  /** Chunks that are each sent whole, of these artifacts. */
  ghost predicate WholeChunks(ps: seq<WirePayload>, ids: seq<string>) {
    |ps| == |ids| && forall i | 0 <= i < |ps| :: IsChunk(ps[i]) && !ps[i].append && ps[i].artifact.artifactId == ids[i]
  }

  function Texts(ps: seq<WirePayload>): (r: seq<string>)
    ensures |r| == |ps|
  {
    seq(|ps|, i requires 0 <= i < |ps| => if ps[i].ArtifactPayload? then Said(ps[i].artifact.parts) else "")
  }

  function Lines(texts: seq<string>): string {
    if texts == [] then "" else Join(texts, "\n")
  }

  /** Where the stream last sent one artifact twice in a row: at its second sending. */
  function LastRepetition(ids: seq<string>): (r: nat)
    ensures r <= |ids| && (ids != [] ==> r < |ids|)
  {
    if |ids| <= 1 then 0
    else if ids[|ids| - 1] == ids[|ids| - 2] then |ids| - 1
    else LastRepetition(ids[..|ids| - 1])
  }

  lemma {:induction false} JoinMore(texts: seq<string>, text: string)
    requires texts != []
    ensures Join(texts + [text], "\n") == Join(texts, "\n") + "\n" + text
  {
    if |texts| == 1 {
      assert (texts + [text])[1..] == [text];
    } else {
      assert (texts + [text])[1..] == texts[1..] + [text];
      JoinMore(texts[1..], text);
    }
  }

  lemma {:induction false} AnswerOverMore(a: Answer, responses: seq<Json>, last: Json, push: Push)
    ensures AnswerOver(a, responses + [last], push) == AnswerAfter(AnswerOver(a, responses, push), last, push)
    decreases |responses|
  {
    hide AnswerAfter;
    if responses == [] {
      assert ([] + [last])[1..] == [];
    } else {
      assert (responses + [last])[1..] == responses[1..] + [last];
      AnswerOverMore(AnswerAfter(a, responses[0], push), responses[1..], last, push);
    }
  }

  lemma {:induction false} JoinIsLong(texts: seq<string>)
    requires texts != [] && forall i | 0 <= i < |texts| :: texts[i] != ""
    ensures Join(texts, "\n") != ""
  {
  }

  /** The answer is what came from the last repetition on. */
  lemma {:induction false} AnswerIsTheTail(ps: seq<WirePayload>, ids: seq<string>, v: Version)
    requires ps != [] && WholeChunks(ps, ids)
    ensures AnswerOver(NO_ANSWER, EncodeStream(ps, v), Unbounded()) ==
              Answer(ids[|ids| - 1], Join(Texts(ps)[LastRepetition(ids)..], "\n"))
    decreases |ps|
  {
    hide EncodeResponse, AnswerAfter, AnswerOver, Said, Join, LastRepetition;
    var n := |ps| - 1;
    var front := ps[..n];
    if n == 0 {
      FirstChunk(ps, ids, v);
    } else {
      AnswerIsTheTail(front, ids[..n], v);
      assert ids[..n][n - 1] == ids[n - 1];
      TailStep(ps, ids);
      assert EncodeStream(ps, v) == EncodeStream(front, v) + [EncodeResponse(ps[n], v)];
      AnswerOverMore(NO_ANSWER, EncodeStream(front, v), EncodeResponse(ps[n], v), Unbounded());
      ChunkRead(AnswerOver(NO_ANSWER, EncodeStream(front, v), Unbounded()), ps[n], v);
      assert "" + Said(ps[n].artifact.parts) == Said(ps[n].artifact.parts);
    }
  }

  lemma FirstChunk(ps: seq<WirePayload>, ids: seq<string>, v: Version)
    requires |ps| == 1 && WholeChunks(ps, ids)
    ensures AnswerOver(NO_ANSWER, EncodeStream(ps, v), Unbounded())
            == Answer(ids[0], Join(Texts(ps)[LastRepetition(ids)..], "\n"))
  {
    hide EncodeResponse, AnswerAfter, Said, Join;
    var said := Said(ps[0].artifact.parts);
    NothingYet(v);
    assert EncodeStream(ps, v) == [] + [EncodeResponse(ps[0], v)];
    AnswerOverMore(NO_ANSWER, [], EncodeResponse(ps[0], v), Unbounded());
    ChunkRead(NO_ANSWER, ps[0], v);
    assert "" + said == said;
    assert Texts(ps)[0..] == [said];
    OneLine(said);
  }

  lemma NothingYet(v: Version)
    ensures AnswerOver(NO_ANSWER, [], Unbounded()) == NO_ANSWER && EncodeStream([], v) == []
  {
  }

  lemma OneLine(text: string)
    ensures Join([text], "\n") == text
  {
  }

  lemma TailStep(ps: seq<WirePayload>, ids: seq<string>)
    requires |ps| >= 2 && WholeChunks(ps, ids)
    ensures var n := |ps| - 1;
            var before := Join(Texts(ps[..n])[LastRepetition(ids[..n])..], "\n");
            && before != ""
            && Join(Texts(ps)[LastRepetition(ids)..], "\n") ==
                 if ids[n] == ids[n - 1] then Texts(ps)[n] else before + "\n" + Texts(ps)[n]
  {
    hide Said, Join, Texts, IsChunk;
    var n := |ps| - 1;
    assert |ps| == |ids|;
    var r, texts := LastRepetition(ids[..n]), Texts(ps);
    TextsOfFront(ps, ids);
    var tail := texts[r..n];
    assert texts[..n][r..] == tail;
    JoinIsLong(tail);
    if ids[n] == ids[n - 1] {
      assert texts[n..] == [texts[n]];
      OneLine(texts[n]);
    } else {
      assert texts[r..] == tail + [texts[n]];
      JoinMore(tail, texts[n]);
    }
  }

  lemma TextsOfFront(ps: seq<WirePayload>, ids: seq<string>)
    requires ps != [] && WholeChunks(ps, ids)
    ensures Texts(ps[..|ps| - 1]) == Texts(ps)[..|ps| - 1]
    ensures forall i | 0 <= i < |ps| :: Texts(ps)[i] != ""
  {
    hide Said;
    forall i | 0 <= i < |ps| ensures Texts(ps)[i] != "" { assert IsChunk(ps[i]); }
  }

  /** The latest text of each artifact, in the order in which the artifacts first came. */
  function LastIndex(ids: seq<string>, id: string): (r: nat)
    requires id in ids
    ensures r < |ids| && ids[r] == id && id !in ids[r + 1..]
  {
    var n := |ids| - 1;
    if ids[n] == id then n
    else
      assert ids == ids[..n] + [ids[n]];
      var r := LastIndex(ids[..n], id);
      assert ids[r + 1..] == ids[..n][r + 1..] + [ids[n]];
      r
  }

  function Itself(): string -> string { (s: string) => s }

  function Latest(ids: seq<string>, texts: seq<string>): (r: seq<string>)
    requires |texts| == |ids|
    ensures |r| == |FirstOf(ids, Itself())|
  {
    var kept := FirstOf(ids, Itself());
    seq(|kept|, k requires 0 <= k < |kept| =>
      FirstOfIsPart(ids, Itself(), kept[k]);
      texts[LastIndex(ids, kept[k])])
  }

  /** The answer holds each artifact's latest text, and nothing else, whatever the texts are. */
  ghost predicate AlwaysLatest(ids: seq<string>, v: Version) {
    forall ps | WholeChunks(ps, ids) ::
        AnswerOver(NO_ANSWER, EncodeStream(ps, v), Unbounded()).text == Lines(Latest(ids, Texts(ps)))
  }

  lemma LatestOfTail(ids: seq<string>, texts: seq<string>)
    requires |texts| == |ids| && ids[LastRepetition(ids)..] == FirstOf(ids, Itself())
    ensures Latest(ids, texts) == texts[LastRepetition(ids)..]
  {
    hide FirstOf;
    var r, kept := LastRepetition(ids), FirstOf(ids, Itself());
    FirstOfKeepsKeys(ids, Itself());
    forall k | 0 <= k < |kept| ensures Latest(ids, texts)[k] == texts[r..][k] {
      FirstOfIsPart(ids, Itself(), kept[k]);
      assert ids[r + k] == kept[k];
      TailIndex(ids, r, k);
    }
  }

  lemma TailIndex(ids: seq<string>, r: nat, k: nat)
    requires r + k < |ids| && forall i, j | 0 <= i < j < |ids[r..]| :: Itself()(ids[r..][i]) != Itself()(ids[r..][j])
    ensures ids[r + k] in ids && LastIndex(ids, ids[r + k]) == r + k
  {
    var at := LastIndex(ids, ids[r + k]);
    var after := ids[at + 1..];
    forall i | at < i < |ids| ensures ids[i] == after[i - at - 1] && ids[i] != ids[at] {}
    forall i | r + k < i < |ids| ensures ids[i] != ids[r + k] {
      assert ids[i] == ids[r..][i - r] && ids[r + k] == ids[r..][k];
      assert Itself()(ids[r..][k]) != Itself()(ids[r..][i - r]);
    }
  }

  /** Texts of different lengths, none empty, none with a line end. */
  function Strokes(n: nat): (r: string)
    ensures |r| == n && '\n' !in r
  {
    if n == 0 then "" else "x" + Strokes(n - 1)
  }

  function Marked(ids: seq<string>): (r: seq<WirePayload>)
    ensures |r| == |ids|
  {
    seq(|ids|, i requires 0 <= i < |ids| => ChunkOf(ids[i], Strokes(i + 1)))
  }

  lemma MarkedAreWhole(ids: seq<string>)
    ensures WholeChunks(Marked(ids), ids)
    ensures forall i | 0 <= i < |ids| :: Texts(Marked(ids))[i] == Strokes(i + 1)
  {
    hide Said, Strokes;
    forall i | 0 <= i < |ids| ensures Said(Marked(ids)[i].artifact.parts) == Strokes(i + 1) {
      OnePartSaid(Strokes(i + 1));
    }
  }

  lemma MarkedTell(ids: seq<string>)
    requires ids != [] && Lines(Texts(Marked(ids))[LastRepetition(ids)..]) == Lines(Latest(ids, Texts(Marked(ids))))
    ensures ids[LastRepetition(ids)..] == FirstOf(ids, Itself())
  {
    hide *;
    var r, kept, texts := LastRepetition(ids), FirstOf(ids, Itself()), Texts(Marked(ids));
    MarkedAreWhole(ids);
    var tail, latest := texts[r..], Latest(ids, texts);
    SomethingKept(ids);
    MarkedLatest(ids);
    LinesOfSome(tail);
    LinesOfSome(latest);
    forall k | 0 <= k < |tail| ensures tail[k] == Strokes(r + k + 1) && '\n' !in tail[k] {}
    SplitOfJoin(tail, '\n');
    SplitOfJoin(latest, '\n');
    assert tail == latest;
    forall k | 0 <= k < |kept| ensures ids[r..][k] == kept[k] {
      var at := LatestAt(ids, k);
      assert |Strokes(at + 1)| == |Strokes(r + k + 1)|;
    }
  }

  lemma LinesOfSome(texts: seq<string>)
    requires texts != []
    ensures Lines(texts) == Join(texts, ['\n'])
  {
    hide Join;
  }

  lemma LatestAt(ids: seq<string>, k: nat) returns (at: nat)
    requires k < |FirstOf(ids, Itself())|
    ensures at < |ids| && ids[at] == FirstOf(ids, Itself())[k] && Latest(ids, Texts(Marked(ids)))[k] == Strokes(at + 1)
  {
    hide FirstOf, Said, Strokes, Marked, Texts;
    MarkedAreWhole(ids);
    FirstOfIsPart(ids, Itself(), FirstOf(ids, Itself())[k]);
    at := LastIndex(ids, FirstOf(ids, Itself())[k]);
  }

  lemma MarkedLatest(ids: seq<string>)
    ensures var latest := Latest(ids, Texts(Marked(ids))); forall k | 0 <= k < |latest| :: '\n' !in latest[k]
  {
    hide FirstOf, Said, Strokes, Marked, Latest, Texts;
    var latest := Latest(ids, Texts(Marked(ids)));
    forall k | 0 <= k < |latest| ensures '\n' !in latest[k] {
      var at := LatestAt(ids, k);
    }
  }

  lemma SomethingKept(ids: seq<string>)
    requires ids != []
    ensures FirstOf(ids, Itself()) != []
  {
    hide FirstOf;
    FirstOfKeepsKeys(ids, Itself());
    assert Itself()(ids[0]) in Keys(ids, Itself());
  }

  /**
   For which artifacts, sent whole in this order, the answer is each artifact's latest text whatever the texts are:
   exactly when those sent since the last immediate repetition are all of them, each once, in the order in which
   they first came.
   */
  lemma LatestTextsExactly(ids: seq<string>, v: Version)
    ensures AlwaysLatest(ids, v) <==> ids[LastRepetition(ids)..] == FirstOf(ids, Itself())
  {
    hide FirstOf, Said, AnswerOver, EncodeStream, Latest, Join;
    if ids == [] {
      NothingSent(v);
    } else {
      if ids[LastRepetition(ids)..] == FirstOf(ids, Itself()) {
        forall ps | WholeChunks(ps, ids)
          ensures AnswerOver(NO_ANSWER, EncodeStream(ps, v), Unbounded()).text == Lines(Latest(ids, Texts(ps)))
        {
          AnswerIsTheTail(ps, ids, v);
          LatestOfTail(ids, Texts(ps));
        }
      }
      if AlwaysLatest(ids, v) {
        MarkedAreWhole(ids);
        AnswerIsTheTail(Marked(ids), ids, v);
        MarkedTell(ids);
      }
    }
  }

  /** Two artifacts are enough: resending the second one discards the first, and resending the first one repeats it. */
  lemma TwoArtifactsBreakResending(v: Version)
    ensures var (a, b) := (ChunkOf("a", "x"), ChunkOf("b", "y"));
            && AnswerOver(NO_ANSWER, EncodeStream([a, b, b], v), Unbounded()).text == "y"
            && AnswerOver(NO_ANSWER, EncodeStream([a, b, a], v), Unbounded()).text == "x\ny\nx"
  {
    hide Said, AnswerOver, EncodeStream;
    OnePartSaid("x");
    OnePartSaid("y");
    var a, b := ChunkOf("a", "x"), ChunkOf("b", "y");
    AnswerIsTheTail([a, b, b], ["a", "b", "b"], v);
    AnswerIsTheTail([a, b, a], ["a", "b", "a"], v);
    assert Texts([a, b, b])[2..] == ["y"];
    assert ["a", "b", "a"][..2] == ["a", "b"] && ["a", "b"][..1] == ["a"];
    assert Texts([a, b, a])[0..] == ["x", "y", "x"];
    assert ["x", "y", "x"][1..] == ["y", "x"] && ["y", "x"][1..] == ["x"];
  }

  lemma NothingSent(v: Version)
    ensures AlwaysLatest([], v) && FirstOf<string, string>([], Itself()) == []
  {
    NothingYet(v);
    forall ps | WholeChunks(ps, [])
      ensures AnswerOver(NO_ANSWER, EncodeStream(ps, v), Unbounded()).text == Lines(Latest([], Texts(ps)))
    {
      assert ps == [];
    }
  }
}

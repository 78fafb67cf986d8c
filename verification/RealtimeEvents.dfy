/** Events and the topics they fan out on. */
module RealtimeEvents {
  import opened Wrappers

  /** An identifier, held as its canonical text. */
  datatype Uuid = Uuid(text: string)

  datatype Entity =
    | Issue | Project | Sprint | IssueLink | Comment | Context | ContextLink | IssueTag | IssueTagLink
    | Attachment | SprintAttachment | ProjectAttachment | ContextAttachment | Changelog | ProjectBlock
    | WhiteboardPage | UnknownEntity

  datatype Event = Event(
    entity: Entity,
    id: Uuid,
    issueId: Option<Uuid>,
    sprintId: Option<Uuid>,
    contextId: Option<Uuid>,
    tagId: Option<Uuid>,
    parentIssueId: Option<Uuid>,
    projectId: Option<Uuid>,
    membersOnly: bool,
    version: int)

  const KINDS: seq<string> := [
    "issue_context_link", "project_context", "project_changelog", "whiteboard_page", "issue_tag_link",
    "issue_link", "issue_tag", "comment", "issue", "project", "sprint"]

  function Topic(kind: string, id: Uuid): string {
    kind + ":" + id.text
  }

  function When(kind: string, id: Option<Uuid>): seq<string> {
    if id.Some? then [Topic(kind, id.value)] else []
  }

  /** The topics an event goes out on, in the order they are visited. */
  function Topics(e: Event): seq<string> {
    match e.entity
    case Issue => [Topic("issue", e.id)] + When("issue", e.parentIssueId) + When("project", e.projectId)
    case Project => [Topic("project", e.id)]
    case Sprint => [Topic("sprint", e.id)] + When("project", e.projectId)
    case IssueLink => [Topic("issue_link", e.id)] + When("project", e.projectId)
    case Comment => [Topic("comment", e.id)] + When("issue", e.issueId) + When("project", e.projectId)
    case Context => [Topic("project_context", e.id)] + When("project", e.projectId)
    case ContextLink =>
      [Topic("issue_context_link", e.id)] + When("issue", e.issueId)
      + When("project_context", e.contextId) + When("project", e.projectId)
    case IssueTag => [Topic("issue_tag", e.id)] + When("project", e.projectId)
    case IssueTagLink =>
      [Topic("issue_tag_link", e.id)] + When("issue", e.issueId)
      + When("issue_tag", e.tagId) + When("project", e.projectId)
    case Attachment => When("issue", e.issueId) + When("project", e.projectId)
    case SprintAttachment => When("sprint", e.sprintId) + When("project", e.projectId)
    case ProjectAttachment => When("project", e.projectId)
    case ContextAttachment => When("project_context", e.contextId) + When("project", e.projectId)
    case Changelog =>
      [Topic("project_changelog", e.id)] + When("project", e.projectId)
      + When("issue", e.issueId) + When("issue", e.parentIssueId)
    case ProjectBlock => When("project", e.projectId)
    case WhiteboardPage => [Topic("whiteboard_page", e.id)] + When("project", e.projectId)
    case UnknownEntity => []
  }

  datatype TopicError = InvalidUuid | UnknownFormat

  /** The text starts with the kind and a colon, and something follows. */
  predicate HasKind(t: string, kind: string) {
    |t| > |kind| + 1 && t[..|kind|] == kind && t[|kind|] == ':'
  }

  /** The kinds a client may name. */
  lemma KnownKinds(kind: string)
    ensures kind in KINDS <==>
            kind in {"issue", "project", "sprint", "issue_link", "comment", "project_context", "issue_context_link",
                     "issue_tag", "issue_tag_link", "project_changelog", "whiteboard_page"}
  {
  }

  lemma KindsHaveNoColon(i: nat)
    requires i < |KINDS|
    ensures ':' !in KINDS[i]
  {
  }

  lemma OneKind(t: string, a: string, b: string)
    requires HasKind(t, a) && HasKind(t, b) && ':' !in a && ':' !in b
    ensures a == b
  {
  }

  /** Accepts exactly a known kind, a colon and a parsable identifier, whatever order the kinds are tried in. */
  method ParseTopic(parse: string -> Option<Uuid>, t: string) returns (r: Result<(string, Uuid), TopicError>)
    ensures forall kind | kind in KINDS && HasKind(t, kind) ::
              r == match parse(t[|kind| + 1..])
                   case Some(id) => Ok((kind, id))
                   case None => Err(InvalidUuid)
    ensures (forall kind | kind in KINDS :: !HasKind(t, kind)) ==> r == Err(UnknownFormat)
  {
    hide HasKind;
    for i := 0 to |KINDS|
      invariant forall j | 0 <= j < i :: !HasKind(t, KINDS[j])
    {
      var kind := KINDS[i];
      HasKindBounds(t, kind);
      if HasKind(t, kind) {
        KindsHaveNoColon(i);
        forall other | other in KINDS && HasKind(t, other) ensures other == kind {
          var j :| 0 <= j < |KINDS| && KINDS[j] == other;
          KindsHaveNoColon(j);
          OneKind(t, kind, other);
        }
        match parse(t[|kind| + 1..])
        case None => return Err(InvalidUuid);
        case Some(id) => return Ok((kind, id));
      }
    }
    return Err(UnknownFormat);
  }

  lemma HasKindBounds(t: string, kind: string)
    ensures HasKind(t, kind) ==> |t| > |kind| + 1
  {
  }

  /** A built topic names its own kind and identifier, and no other. */
  lemma TopicNames(kind: string, id: Uuid, t: string)
    requires kind in KINDS && id.text != "" && t == Topic(kind, id)
    ensures HasKind(t, kind) && t[|kind| + 1..] == id.text
    ensures forall other | other in KINDS && HasKind(t, other) :: other == kind
  {
    assert t[..|kind|] == kind;
    var i :| 0 <= i < |KINDS| && KINDS[i] == kind;
    KindsHaveNoColon(i);
    forall other | other in KINDS && HasKind(t, other) ensures other == kind {
      var j :| 0 <= j < |KINDS| && KINDS[j] == other;
      KindsHaveNoColon(j);
      OneKind(t, kind, other);
    }
  }

  /** Two topics are the same text only when kind and identifier are the same. */
  lemma TopicsDistinct(kindA: string, a: Uuid, kindB: string, b: Uuid)
    requires kindA in KINDS && kindB in KINDS && a.text != "" && b.text != ""
    requires Topic(kindA, a) == Topic(kindB, b)
    ensures kindA == kindB && a == b
  {
    TopicNames(kindA, a, Topic(kindA, a));
    TopicNames(kindB, b, Topic(kindB, b));
  }

  /** The kind of topic an entity has of its own; attachments and project blocks have none. */
  function OwnKind(entity: Entity): Option<string> {
    match entity
    case Issue => Some("issue")
    case Project => Some("project")
    case Sprint => Some("sprint")
    case IssueLink => Some("issue_link")
    case Comment => Some("comment")
    case Context => Some("project_context")
    case ContextLink => Some("issue_context_link")
    case IssueTag => Some("issue_tag")
    case IssueTagLink => Some("issue_tag_link")
    case Changelog => Some("project_changelog")
    case WhiteboardPage => Some("whiteboard_page")
    case _ => None
  }

  /** The event is news to whoever follows this object: said from the follower's side, kind by kind. */
  predicate Concerns(e: Event, kind: string, id: Uuid) {
    || (OwnKind(e.entity) == Some(kind) && e.id == id)
    || (kind == "project" && e.projectId == Some(id) && e.entity !in {Project, UnknownEntity})
    || (kind == "issue" && e.issueId == Some(id)
        && e.entity in {Comment, ContextLink, IssueTagLink, Attachment, Changelog})
    || (kind == "issue" && e.parentIssueId == Some(id) && e.entity in {Issue, Changelog})
    || (kind == "sprint" && e.sprintId == Some(id) && e.entity == SprintAttachment)
    || (kind == "project_context" && e.contextId == Some(id) && e.entity in {ContextLink, ContextAttachment})
    || (kind == "issue_tag" && e.tagId == Some(id) && e.entity == IssueTagLink)
  }

  predicate NonemptyIds(e: Event) {
    && e.id.text != ""
    && forall o | o in [e.issueId, e.sprintId, e.contextId, e.tagId, e.parentIssueId, e.projectId] ::
         o.Some? ==> o.value.text != ""
  }

  lemma WhenNames(kind: string, id: Option<Uuid>, k: string, i: Uuid)
    requires kind in KINDS && k in KINDS && i.text != "" && (id.Some? ==> id.value.text != "")
    ensures Topic(k, i) in When(kind, id) <==> k == kind && id == Some(i)
  {
    hide Topic;
    if id.Some? && Topic(k, i) == Topic(kind, id.value) {
      TopicsDistinct(k, i, kind, id.value);
    }
  }

  lemma OwnNames(e: Event, kind: string, id: Uuid)
    requires kind in KINDS && id.text != "" && e.id.text != ""
    ensures var own := OwnKind(e.entity);
            own.Some? ==> (Topic(kind, id) == Topic(own.value, e.id) <==> own.value == kind && e.id == id)
  {
    hide Topic;
    var own := OwnKind(e.entity);
    if own.Some? && Topic(kind, id) == Topic(own.value, e.id) {
      TopicsDistinct(kind, id, own.value, e.id);
    }
  }

  lemma ReferenceNames(e: Event, kind: string, id: Uuid)
    requires kind in KINDS && id.text != "" && NonemptyIds(e)
    ensures Topic(kind, id) in When("issue", e.issueId) <==> kind == "issue" && e.issueId == Some(id)
    ensures Topic(kind, id) in When("issue", e.parentIssueId) <==> kind == "issue" && e.parentIssueId == Some(id)
    ensures Topic(kind, id) in When("project", e.projectId) <==> kind == "project" && e.projectId == Some(id)
    ensures Topic(kind, id) in When("sprint", e.sprintId) <==> kind == "sprint" && e.sprintId == Some(id)
    ensures Topic(kind, id) in When("project_context", e.contextId)
            <==> kind == "project_context" && e.contextId == Some(id)
    ensures Topic(kind, id) in When("issue_tag", e.tagId) <==> kind == "issue_tag" && e.tagId == Some(id)
  {
    hide Topic, When;
    WhenNames("issue", e.issueId, kind, id);
    WhenNames("issue", e.parentIssueId, kind, id);
    WhenNames("project", e.projectId, kind, id);
    WhenNames("sprint", e.sprintId, kind, id);
    WhenNames("project_context", e.contextId, kind, id);
    WhenNames("issue_tag", e.tagId, kind, id);
  }

  /** An event goes out to the followers of exactly the objects it concerns. */
  lemma FollowersHearExactly(e: Event, kind: string, id: Uuid)
    requires kind in KINDS && id.text != "" && NonemptyIds(e)
    ensures Topic(kind, id) in Topics(e) <==> Concerns(e, kind, id)
  {
    hide Topic, When, KINDS;
    ReferenceNames(e, kind, id);
    OwnNames(e, kind, id);
  }
}

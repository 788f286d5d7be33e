/** The records the notifier reads from the Optimizely REST API and the
    records it builds from them. Only the fields the decision logic reads
    are kept. A field the code tests for presence before using it is an
    `Option`; a field it dereferences unconditionally is always there. */
module Optimizely {
  import opened Wrappers

  /** Entity, experiment and page ids (numbers in the API). */
  type Id = nat

  /** One field-level change in an audit record: `{property, after}`.
      `property` may be missing. */
  datatype Change = Change(property: Option<string>, after: string)

  /** The entity an audit record is about: `{id, name}`. */
  datatype Entity = Entity(id: Id, name: string)

  /** One record of the change-history feed: `{entity, changes}`; a record
      may come without `changes`. */
  datatype ChangeEvent = ChangeEvent(entity: Entity, changes: Option<seq<Change>>)

  /** One change of a shared or variation payload: `{type, value}`. */
  datatype CodeChange = CodeChange(kind: string, value: string)

  /** One action of a variation: `{changes}`. */
  datatype Action = Action(changes: seq<CodeChange>)

  /** One variation: its traffic `weight` in basis points and its `actions`,
      which may be missing. */
  datatype Variation = Variation(weight: int, actions: Option<seq<Action>>)

  /** The experiment as `GET /experiments/{id}` returns it. `variations` and
      the shared `changes` may be missing. */
  datatype ExperimentDetail = ExperimentDetail(
    audienceConditions: string,
    pageIds: seq<Id>,
    variations: Option<seq<Variation>>,
    changes: Option<seq<CodeChange>>)

  /** The page as `GET /pages/{id}` returns it; `conditions` may be missing. */
  datatype PageDetail = PageDetail(conditions: Option<string>)

  /** The record kept per experiment whose status changed:
      `{exp_id, exp_name, exp_status, project}`, to which the targeting check
      later adds `isEqualTrafficAllocation` and `hasCustomGoals` (absent
      until then). */
  datatype StatusChange = StatusChange(
    expId: Id,
    expName: string,
    expStatus: string,
    project: string,
    isEqualTrafficAllocation: Option<bool>,
    hasCustomGoals: Option<bool>)

  /** The environment configuration: the two tracked projects and the QA
      audience of each. */
  datatype Config = Config(
    thProjectId: string,
    ckProjectId: string,
    thAudienceId: string,
    ckAudienceId: string)

  /** The project label stored with each record: "TH" for the TH project,
      "CK" for every other project. */
  function ProjectLabel(cfg: Config, projectId: string): (name: string)
    ensures name == "TH" <==> projectId == cfg.thProjectId
    ensures name == "TH" || name == "CK"
  {
    if projectId == cfg.thProjectId then "TH" else "CK"
  }
}

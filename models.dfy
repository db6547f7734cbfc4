/** The entities of `app/models/models.py` as rows. Integer primary keys are
    opaque numbers handed out by the store; `Part` is keyed by its externally
    assigned `partId`. Timestamps are integers supplied by the caller. */
module Models {

  import opened Seqs

  /** Default `Part.current_status` ("in stock"), and the status a part falls
      back to when its last completed stage is cancelled. */
  const InStock: string := "На складе"

  /** A stage of the shared dictionary. `name` is unique. */
  datatype Stage = Stage(id: int, name: string)

  /** A route template; `name` is unique, at most one template is the default. */
  datatype RouteTemplate = RouteTemplate(id: int, name: string, isDefault: bool)

  /** The join row that puts stage `stageId` at position `order` of template
      `templateId`. Its own primary key is never read by the core and is left out. */
  datatype RouteStage = RouteStage(templateId: int, stageId: int, order: int)

  /** A tracked part. Its template reference is optional (nullable foreign key). */
  datatype Part = Part(partId: string, productDesignation: string, templateId: Option<int>,
                       currentStatus: string, dateAdded: int, lastUpdate: int)

  /** One completed stage of one part. */
  datatype StatusEntry = StatusEntry(id: int, partId: string, status: string,
                                     operatorName: string, timestamp: int)

  /** One audit record; it may or may not be about a part. */
  datatype AuditEntry = AuditEntry(id: int, partId: Option<string>, userId: int,
                                   timestamp: int, action: string, details: string)

  /** A user and the permission flags the handlers consult. The password hash
      is not part of this model. */
  datatype User = User(id: int, username: string, role: string,
                       canAddParts: bool, canEditParts: bool, canDeleteParts: bool,
                       canGenerateQr: bool, canViewAuditLog: bool, canManageStages: bool,
                       canManageRoutes: bool, canViewReports: bool, canManageUsers: bool)
  {
    /** Administrator rights are the user-management flag and nothing else:
        neither the role string nor any other flag makes a user an administrator. */
    function IsAdmin(): (r: bool)
      ensures r <==> canManageUsers
    {
      canManageUsers
    }
  }

  /** A part as the handlers create it: the column defaults give it the
      in-stock status and stamp both dates with the creation time. */
  function NewPart(partId: string, product: string, templateId: Option<int>, now: int): (p: Part)
    ensures p.partId == partId && p.productDesignation == product && p.templateId == templateId
    ensures p.currentStatus == InStock && p.dateAdded == now && p.lastUpdate == now
  {
    Part(partId, product, templateId, InStock, now, now)
  }
}

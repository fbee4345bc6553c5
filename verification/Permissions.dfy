/** The role-by-action matrix. Roles: owner > editor > viewer; a stranger has none. */
module Permissions {
  import opened Wrappers

  datatype Role = Owner | Editor | Viewer

  /** The text in a share row's role column; the schema admits only the first two. */
  datatype RoleText = EditorText | ViewerText | OtherText(text: string)

  datatype Action =
    | ReadList | ListItems | CreateItem | UpdateItem | DeleteItem
    | RenameList | ShareList | ChangeCollaboratorRole | RevokeShare | DeleteList
    | UnknownAction(name: string)

  function EffectiveRole(isOwner: bool, share: Option<RoleText>): Checked<Option<Role>> {
    if isOwner then Returns(Some(Owner))
    else match share
      case None => Returns(None)
      case Some(EditorText) => Returns(Some(Editor))
      case Some(ViewerText) => Returns(Some(Viewer))
      case Some(OtherText(_)) => ValueError
  }

  function Allowed(role: Role): set<Action> {
    match role
    case Owner => {ReadList, ListItems, CreateItem, UpdateItem, DeleteItem,
                   RenameList, ShareList, ChangeCollaboratorRole, RevokeShare, DeleteList}
    case Editor => {ReadList, ListItems, CreateItem, UpdateItem, DeleteItem}
    case Viewer => {ReadList, ListItems}
  }

  function CanPerform(role: Role, action: Action): Checked<bool> {
    if action.UnknownAction? then ValueError else Returns(action in Allowed(role))
  }
}

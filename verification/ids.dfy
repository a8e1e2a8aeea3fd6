/** Identifier types shared by every module. The persisted identifiers
    (users, conversations, messages) are database object ids and the
    socket identifiers are transport connection ids; all are opaque
    strings here. A conversation id doubles as the id of its real-time room. */
module Ids {
  type UserId = string
  type ConvId = string
  type MsgId = string
  type SocketId = string
  type Email = string
}

/** The HTTP errors the routers raise. Each error carries its status code and
    the validation that raised it, so that handlers with several 400 or 404 paths
    can be told apart. */
module Http {

  datatype Reason =
    | ClientNotConfigured
    | InvalidWorkspaceId
    | WorkspaceNotFound
    | InvalidNodeId
    | NodeNotFound
    | InvalidMessageId
    | MessageNotFound
    | InvalidModelId
    | InvalidSender
    | AccessDenied
    | NoNodes
    | NoMessages
    | UpstreamFailure(message: string)
    | MissingField

  datatype HttpError = HttpError(status: int, reason: Reason)

  function BadRequest(reason: Reason): HttpError { HttpError(400, reason) }
  function Forbidden(reason: Reason): HttpError { HttpError(403, reason) }
  function NotFound(reason: Reason): HttpError { HttpError(404, reason) }
  function ServerError(reason: Reason): HttpError { HttpError(500, reason) }
}

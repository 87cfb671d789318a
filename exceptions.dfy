/**
  The errors the resolution and build code throws (`MinecraftDockerError`).

  The human-readable message that `serverDownload` carries is reduced to the
  reason it reports, which is all any caller can act on.
*/
module Exceptions {
  import opened Wrappers

  /** Why a `serverDownload` error was raised. */
  datatype Reason =
    | NoHttpResponse   // "Server error when retrieving …": the reply was not an HTTP response
    | ErrorStatus      // "Server responded with an error …": a status other than 200
    | InvalidData      // "Invalid … data" / "Failed to decode server response"
    | NotFound         // "No … found"

  datatype MinecraftDockerError =
    | ServerDownload(reason: Reason)
    | InvalidGameVersion
    | DockerError
    | BuildError
    | RemoteTagExists
    | MissingRepositoryNamespace
    | MissingRepositoryName
    | LoginFailed
    | PushFailed
    | CleanupFailed
      /** Thrown by the older `MinecraftVersion`-based code paths. */
    | InvalidMinecraftVersion
      /** An error thrown by the HTTP session itself, passed through unchanged. */
    | TransportError

  type Outcome<T> = Result<T, MinecraftDockerError>
}

/** Stock result types and the error codes the modelled operations return. */
module Results {

  datatype Option<+T> = None | Some(value: T)

  datatype Result<+T> = Ok(value: T) | Err(error: ErrorCode)

  datatype ErrorCode =
    | NotFound
    | InvalidInput
    | RequestConflict
    | DatabaseError
    | ImportCancelled
    | BookNotReady
    | ContextTooLarge
    | AnchorNotFound
    | CredentialStoreError
    | LocalIoError
    | ProviderUnavailable
}

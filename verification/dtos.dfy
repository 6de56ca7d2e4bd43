/** The request bodies the services read. None of them is ever changed by a service. */
module Dtos {
  import opened Common

  /**
   * A task request. There is no author field: the author can only come from the caller's
   * identity. `executorId` and `labelIds` may be null; `taskStatusId` may be null too,
   * but the validation run before the service rejects that.
   */
  datatype TaskDto = TaskDto(
    name: string,
    description: string,
    executorId: Option<Id>,
    taskStatusId: Option<Id>,
    labelIds: Option<set<Id>>)
  {
    /**
     * The constraints checked on the request body: a non-blank name of at least one character
     * and a non-null status id. The length bound adds nothing to @NotBlank.
     */
    predicate Valid()
      ensures Valid() <==> NotBlank(name) && taskStatusId.Some?
      ensures Valid() ==> |name| >= 1
    {
      NotBlank(name) && |name| >= 1 && taskStatusId.Some?
    }
  }

  /** A user request (registration or self-update); the password is the raw one. */
  datatype UserDto = UserDto(email: string, firstName: string, lastName: string, password: string)

  /** A task status request. */
  datatype TaskStatusDto = TaskStatusDto(name: string)

  /** A label request. */
  datatype LabelDto = LabelDto(name: string)
}

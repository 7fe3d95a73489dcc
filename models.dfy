/** The domain records of internal/domain/models. */
module Models {
  import opened Uuid

  /** userModel.User */
  datatype User = User(id: Uuid, email: string, hashedPassword: string, isAdmin: bool)

  /**
   * The JSON object the service marshals into an event payload: the user's email,
   * the action ("registration" or "login") and the time of the action.
   */
  datatype Payload = Payload(email: string, action: string, timestamp: int)

  /** eventModel.Event */
  datatype Event = Event(id: Uuid, aggregateId: Uuid, eventType: string, payload: Payload, status: string)

  /** eventModel.PENDING, the only status the core writes. */
  const PENDING: string := "pending"
}

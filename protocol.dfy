/**
 * Constants and the shared descriptor of the stop-and-wait protocol that the
 * producer (server) and the consumer (client) agree on. Both programs define
 * the same values; see server/main.cpp:21-37 and SPOVM_Lab3/client/main.cpp:17-33.
 */
module Protocol {

  /** Message codes carried in the `type` field of the shared slot. */
  const MSG_TYPE_STRING: int := 0    // last (or only) fragment of a message
  const MSG_TYPE_CONTINUE: int := 1  // a fragment with more to come
  const MSG_TYPE_FINISH: int := 2    // the session is over

  /** Capacity of the payload field of the slot, in C characters (bytes); a Dafny `char` stands for one. */
  const MAX_SIZE: nat := 30

  /** Size of the producer's staging buffer: three payloads. */
  const STAGING_SIZE: nat := 3 * MAX_SIZE

  /** The input that ends the session. */
  const QUIT: string := "q"

  /**
   * The value held by the one shared slot (`message_t`): the integer type
   * code and the logical content of the payload field. The consumer
   * dispatches on any integer, so `kind` is not restricted to the three codes.
   */
  datatype Message = Message(kind: int, text: seq<char>)

  datatype Option<T> = None | Some(value: T)
}

/**
 * What the MQTT client core does to the world, recorded as values: the calls it
 * makes on the library's client object, and the user callbacks it invokes.  The
 * library client and the callbacks are outside the model, so their effect is
 * exactly these records, in the order they happen.
 */
module Trace {

  /** A user callback, known only by its identity. */
  type CallbackId = nat

  /**
   * A call on the library client.  Every publish and subscribe of the core uses
   * QoS 0, so the level is not recorded.
   */
  datatype Action =
    | ClientPublish(topic: string, retain: bool, payload: string)
    | ClientSubscribe(filter: string)
    | ClientUnsubscribe(filter: string)
    | ClientConnect
    | ClientDisconnect

  /**
   * A user callback invoked: the message callback of the listener at `listener`
   * with the topic and the payload, or the connect callback.
   */
  datatype Invocation =
    | MessageCall(listener: nat, callback: CallbackId, topic: string, payload: string)
    | ConnectCall(callback: CallbackId)
}

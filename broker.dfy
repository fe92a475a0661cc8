/**
 The message broker as seen by one process: a channel that declares queues
 and publishes messages. Only what was declared and what was published is
 kept, as ghost logs; delivery is not modelled.
 */
module Broker {
  import opened WorkerModel

  /** The shared registration queue every worker announces itself on. */
  const RegistrationQueue: string := "worker_reg"
  /** The shared status queue every worker reports on. */
  const StatusQueue: string := "worker_stt"
  /** The prefix of a worker's private command queue; the host name follows it. */
  const CommandQueuePrefix: string := "worker_cmd_"

  /** One publish: the queue it is routed to and the record it carries. */
  datatype Message = Message(routingKey: string, body: Worker)

  class Channel {
    /** Every queue declaration made on this channel, in order. */
    ghost var declared: seq<string>
    /** Every message published on this channel, in order. */
    ghost var published: seq<Message>

    constructor ()
      ensures declared == [] && published == []
    {
      declared := [];
      published := [];
    }

    /** Declares a queue; recorded once per call. */
    method QueueDeclare(queue: string)
      modifies this
      ensures declared == old(declared) + [queue]
      ensures published == old(published)
    {
      declared := declared + [queue];
    }

    /** Publishes `body` to the queue named by `routingKey` on the default exchange. */
    method BasicPublish(routingKey: string, body: Worker)
      modifies this
      ensures published == old(published) + [Message(routingKey, body)]
      ensures declared == old(declared)
    {
      published := published + [Message(routingKey, body)];
    }
  }
}

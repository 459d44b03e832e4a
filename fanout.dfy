/** The Socket.IO server as the post routes use it: `io.emit` broadcasts an
    event to every connected client. Delivery is not modelled; the model
    keeps the sequence of broadcasts. */
module FanOut {
  import opened Models

  datatype Broadcast = PostCreated(post: Post) | PostLiked(post: Post)

  class Broadcaster {
    var sent: seq<Broadcast>

    constructor ()
      ensures sent == []
    {
      sent := [];
    }

    method Emit(b: Broadcast)
      modifies this
      ensures sent == old(sent) + [b]
    {
      sent := sent + [b];
    }
  }
}

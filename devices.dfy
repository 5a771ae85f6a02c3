/** The v4l device as the panel sees it: the outcome of its control query and
    a log of the control writes sent to it. The ioctls themselves are not
    modelled; what they answer is fixed when the handle is made. */
module Devices {
  import opened Controls

  class Device {
    /** What querying the controls answers: the descriptors, or None when the
        query fails. */
    const controls: Option<seq<Description>>
    /** The ids whose current control record the handle can read. */
    const readable: set<U32>
    /** The writes the device rejects. */
    const refused: set<Write>
    /** Every write sent to the handle, in order. */
    var attempts: seq<Write>
    /** The writes the device took, in order. */
    var applied: seq<Write>

    constructor (controls: Option<seq<Description>>, readable: set<U32>, refused: set<Write>)
      ensures this.controls == controls && this.readable == readable && this.refused == refused
      ensures attempts == [] && applied == []
    {
      this.controls := controls;
      this.readable := readable;
      this.refused := refused;
      attempts := [];
      applied := [];
    }

    /** Reads the control record of `w.id` (which must exist, or the panel
        panics) and sends it back with the new integer value; `ok` tells
        whether the device took it. */
    method SetControl(w: Write) returns (ok: bool)
      requires w.id in readable
      modifies this
      ensures ok <==> w !in refused
      ensures attempts == old(attempts) + [w]
      ensures applied == old(applied) + (if ok then [w] else [])
    {
      ok := w !in refused;
      attempts := attempts + [w];
      if ok {
        applied := applied + [w];
      }
    }
  }
}

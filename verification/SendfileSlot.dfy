/** The per-connection handoff between a handler and the transport stream. */
module SendfileHandoff {
  import opened Bytes
  import opened SendfileReference

  /** The most placeholder bytes one frame may carry. */
  const PHANTOM_LEN: nat := 4 * 1024 * 1024

  class SendfileSlot {
    const hasSendfile: bool
    var armed: bool
    var plan: Option<Plan>
    /** Everything this connection was told, in order: handlers arming it, bytes it consumed. */
    ghost var log: seq<Event>

    ghost predicate Valid()
      reads this
    {
      && armed == plan.Some?
      && (plan.Some? ==> plan.value.remaining > 0)
    }

    constructor (hasSendfile: bool)
      ensures Valid() && plan == None && log == []
      ensures this.hasSendfile == hasSendfile
    {
      this.hasSendfile := hasSendfile;
      armed, plan := false, None;
      log := [];
    }

    /** `None`, with the slot untouched, unless this response may be sent with `sendfile(2)`. */
    method Arm(file: FileImage, offset: nat, len: nat) returns (body: SendfileBody?)
      requires Valid()
      modifies this
      ensures Valid()
      ensures body == null <==> !hasSendfile || len == 0 || old(plan).Some?
      ensures body == null ==> unchanged(this)
      ensures body != null ==> fresh(body) && body.remaining == len
      ensures body != null ==>
        plan == Some(Plan(file, offset, len)) && log == old(log) + [Event.Arm(Plan(file, offset, len))]
    {
      if !hasSendfile || len == 0 {
        return null;
      }
      if plan.Some? {
        return null;
      }
      plan := Some(Plan(file, offset, len));
      armed := true;
      log := log + [Event.Arm(Plan(file, offset, len))];
      body := new SendfileBody(len);
    }

    /** Takes the armed plan, if any; the flag is cleared either way. */
    method TakePlan() returns (taken: Option<Plan>)
      requires Valid()
      modifies this
      ensures Valid() && taken == old(plan) && plan == None && !armed
      ensures log == old(log)
    {
      taken := plan;
      plan := None;
      armed := false;
    }
  }

  /** A response body that yields exactly `remaining` placeholder bytes. */
  class SendfileBody {
    var remaining: nat

    constructor (len: nat)
      ensures remaining == len
    {
      remaining := len;
    }

    /** The next frame, or `None` once the promised length has been produced. */
    method PollFrame() returns (frame: Option<seq<byte>>)
      modifies this
      ensures frame.None? <==> old(remaining) == 0
      ensures frame.None? ==> remaining == 0
      ensures frame.Some? ==> 0 < |frame.value| <= PHANTOM_LEN && |frame.value| + remaining == old(remaining)
      ensures frame.Some? && remaining > 0 ==> |frame.value| == PHANTOM_LEN
    {
      if remaining == 0 {
        return None;
      }
      var len := Min(remaining, PHANTOM_LEN);
      remaining := remaining - len;
      return Some(seq(len, _ => 0));
    }
  }
}

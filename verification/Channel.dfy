/** Which events of a descriptor are watched, and the kernel's table that is kept in step with it. */
module EventChannel {

  datatype Flag = In | Pri | EdgeTriggered | Out

  const NONE: set<Flag> := {}
  const READ: set<Flag> := {In, Pri, EdgeTriggered}
  const WRITE: set<Flag> := {Out}

  datatype ChannelState = CNew | CAdded | CDeleted
  datatype Ctl = Add | Mod | Del

  class Channel {
    const fd: int
    const epoller: Epoller
    var event: set<Flag>
    var state: ChannelState

    constructor (epoller: Epoller, fd: int)
      requires fd !in epoller.interest
      ensures Valid() && event == NONE && state == CNew && this.epoller == epoller && this.fd == fd
    {
      this.epoller, this.fd, event, state := epoller, fd, NONE, CNew;
    }

    /** The kernel watches the descriptor exactly in state `CAdded`, and then for exactly these events. */
    ghost predicate Valid()
      reads this, epoller
    {
      && (state == CAdded <==> fd in epoller.interest)
      && (state == CAdded ==> epoller.interest[fd] == event)
      && (state != CAdded ==> event == NONE)
    }

    predicate IsNoEvent()
      reads this
    {
      event == NONE
    }

    predicate IsReadEvent()
      reads this
    {
      event * READ != NONE
    }

    predicate IsWriteEvent()
      reads this
    {
      event * WRITE != NONE
    }

    method DisableAll()
      requires Valid()
      modifies this, epoller
      ensures Valid() && event == {} && epoller.Others(fd) == old(epoller.Others(fd))
    {
      event := NONE;
      epoller.UpdateChannel(this);
    }

    method EnableReadEvent()
      requires Valid()
      modifies this, epoller
      ensures Valid() && event == old(event) + {In, Pri, EdgeTriggered} && epoller.Others(fd) == old(epoller.Others(fd))
      ensures IsReadEvent() && IsWriteEvent() == old(IsWriteEvent())
    {
      event := event + READ;
      assert In in event * READ && event * WRITE == old(event) * WRITE;
      epoller.UpdateChannel(this);
    }

    method EnableWriteEvent()
      requires Valid()
      modifies this, epoller
      ensures Valid() && event == old(event) + {Out} && epoller.Others(fd) == old(epoller.Others(fd))
      ensures IsWriteEvent() && IsReadEvent() == old(IsReadEvent())
    {
      event := event + WRITE;
      assert Out in event * WRITE && event * READ == old(event) * READ;
      epoller.UpdateChannel(this);
    }

    method DisableReadEvent()
      requires Valid()
      modifies this, epoller
      ensures Valid() && event == old(event) - {In, Pri, EdgeTriggered} && epoller.Others(fd) == old(epoller.Others(fd))
      ensures !IsReadEvent() && IsWriteEvent() == old(IsWriteEvent())
    {
      event := event - READ;
      assert event * READ == NONE && event * WRITE == old(event) * WRITE;
      epoller.UpdateChannel(this);
    }

    method DisableWriteEvent()
      requires Valid()
      modifies this, epoller
      ensures Valid() && event == old(event) - {Out} && epoller.Others(fd) == old(epoller.Others(fd))
      ensures !IsWriteEvent() && IsReadEvent() == old(IsReadEvent())
    {
      event := event - WRITE;
      assert event * WRITE == NONE && event * READ == old(event) * READ;
      epoller.UpdateChannel(this);
    }
  }

  class Epoller {
    /** The kernel's table: watched descriptors and the events they are watched for. */
    var interest: map<int, set<Flag>>

    constructor ()
      ensures interest == map[]
    {
      interest := map[];
    }

    ghost function Others(fd: int): map<int, set<Flag>>
      reads this
    {
      interest - {fd}
    }

    /** The kernel refuses to add a descriptor twice and to change or remove one it does not know. */
    method EpollCtl(op: Ctl, fd: int, mask: set<Flag>)
      modifies this
      ensures interest ==
        if (op == Add && fd !in old(interest)) || (op == Mod && fd in old(interest)) then old(interest)[fd := mask]
        else if op == Del then old(interest) - {fd}
        else old(interest)
    {
      match op
      case Add => if fd !in interest { interest := interest[fd := mask]; }
      case Mod => if fd in interest { interest := interest[fd := mask]; }
      case Del => interest := interest - {fd};
    }

    /** Called after a channel has changed its events: whatever they are, the table agrees with them again. */
    method UpdateChannel(channel: Channel)
      requires channel.epoller == this
      requires channel.state == CAdded <==> channel.fd in interest
      modifies this, channel`state
      ensures channel.state == CAdded <==> channel.fd in interest
      ensures channel.state == CAdded ==> interest[channel.fd] == channel.event
      ensures channel.state == if channel.event != NONE || old(channel.state) == CNew then CAdded else CDeleted
      ensures Others(channel.fd) == old(Others(channel.fd))
    {
      if channel.state == CNew {
        EpollCtl(Add, channel.fd, channel.event);
        channel.state := CAdded;
      } else if channel.state == CAdded {
        if channel.IsNoEvent() {
          EpollCtl(Del, channel.fd, channel.event);
          channel.state := CDeleted;
        } else {
          EpollCtl(Mod, channel.fd, channel.event);
        }
      } else if !channel.IsNoEvent() {
        EpollCtl(Add, channel.fd, channel.event);
        channel.state := CAdded;
      }
    }
  }
}

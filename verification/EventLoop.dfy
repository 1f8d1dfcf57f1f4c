/** The event loop's channel map, together with what epoll was told about each descriptor. */
module EventLoops {
  import opened Frames

  datatype Control = Done | InvalidChannel | AlreadyRegistered | NotRegistered | ControlFailed

  class EventLoop {
    /** The interest epoll holds for each registered descriptor. */
    var channels: map<int, set<Event>>

    constructor ()
      ensures channels == map[]
    {
      channels := map[];
    }

    /** `ctlOk` is the outcome of epoll_ctl. A failed registration leaves no trace. */
    method AddChannel(fd: int, interest: set<Event>, ctlOk: bool) returns (r: Control)
      modifies this
      ensures r == (if fd < 0 then InvalidChannel else if fd in old(channels) then AlreadyRegistered
                    else if ctlOk then Done else ControlFailed)
      ensures channels == if r.Done? then old(channels)[fd := interest] else old(channels)
    {
      if fd < 0 {
        return InvalidChannel;
      }
      if fd in channels {
        return AlreadyRegistered;
      }
      ghost var before := channels;
      channels := channels[fd := interest];
      if !ctlOk {
        channels := channels - {fd};
        assert channels == before;
        return ControlFailed;
      }
      return Done;
    }

    method UpdateChannel(fd: int, interest: set<Event>, ctlOk: bool) returns (r: Control)
      modifies this
      ensures r == (if fd < 0 then InvalidChannel else if fd !in old(channels) then NotRegistered
                    else if ctlOk then Done else ControlFailed)
      ensures channels == if r.Done? then old(channels)[fd := interest] else old(channels)
    {
      if fd < 0 {
        return InvalidChannel;
      }
      if fd !in channels {
        return NotRegistered;
      }
      if !ctlOk {
        return ControlFailed;
      }
      channels := channels[fd := interest];
      return Done;
    }

    method RemoveChannel(fd: int)
      modifies this
      ensures channels == if 0 <= fd then old(channels) - {fd} else old(channels)
    {
      if fd < 0 || fd !in channels {
        assert 0 <= fd ==> channels - {fd} == channels;
        return;
      }
      channels := channels - {fd};
    }
  }
}

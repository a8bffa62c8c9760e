/** The fields of net/Channel.h that the pollers use. */
module Channel {

  /** The interest bits: reading stands for POLLIN | POLLPRI, writing for POLLOUT. */
  datatype Events = Events(reading: bool, writing: bool)

  const NONE := Events(false, false)

  class Channel {
    const fd: nat
    var events: Events
    var revents: int
    var index: int

    constructor (fd: nat)
      ensures this.fd == fd && events == NONE && revents == 0 && index == -1
    {
      this.fd := fd;
      events, revents, index := NONE, 0, -1;
    }

    predicate IsNoneEvent()
      reads this
    {
      events == NONE
    }
  }
}

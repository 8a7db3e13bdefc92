/** `net::ScopedFileDescriptor`: one object owns a descriptor and closes it once. */
module NetUtils {
  import opened OperatingSystem

  /** `reset` closes only a valid number, and ignores what `close` returns. */
  function CloseIfValid(k: Kernel, fd: int): (k': Kernel)
    ensures ValidKernel(k) ==> ValidKernel(k')
    ensures k'.channels == k.channels
  {
    if fd >= 0 then CloseFd(k, fd) else k
  }

  class ScopedFileDescriptor {
    var fd_: int

    constructor (fd: int)
      ensures fd_ == fd
    {
      fd_ := fd;
    }

    constructor Move(other: ScopedFileDescriptor)
      modifies other
      ensures fd_ == old(other.fd_) && other.fd_ == -1
    {
      fd_ := other.fd_;
      other.fd_ := -1;
    }

    /** Moving onto itself does nothing; otherwise the old descriptor is closed and the other one's is taken over. */
    method MoveAssign(os: OS, other: ScopedFileDescriptor)
      modifies this, other, os
      ensures this == other ==> fd_ == old(fd_) && os.k == old(os.k)
      ensures this != other ==> fd_ == old(other.fd_) && other.fd_ == -1 && os.k == CloseIfValid(old(os.k), old(fd_))
    {
      if this != other {
        Reset(os, -1);
        fd_ := other.fd_;
        other.fd_ := -1;
      }
    }

    method Reset(os: OS, fd: int)
      modifies this, os
      ensures fd_ == fd && os.k == CloseIfValid(old(os.k), old(fd_))
    {
      if fd_ >= 0 {
        os.Close(fd_);
      }
      fd_ := fd;
    }

    /** Gives the descriptor up without closing it. */
    method Release() returns (fd: int)
      modifies this
      ensures fd == old(fd_) && fd_ == -1
    {
      fd := fd_;
      fd_ := -1;
    }

    /** The destructor. */
    method Destroy(os: OS)
      modifies this, os
      ensures fd_ == -1 && os.k == CloseIfValid(old(os.k), old(fd_))
    {
      Reset(os, -1);
    }
  }
}

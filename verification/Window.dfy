/** The credit window (internal/overlay/window.go). */
module Windows {
  import opened Basics
  import T = Transfer

  class Window {
    var available: Uint32
    var closed: bool

    constructor (initial: Uint32)
      ensures available == initial && !closed
    {
      available, closed := initial, false;
    }

    /** One turn of the loop in Acquire: MustWait leaves the window as it is and waits for the
        next Release or Close. */
    method Acquire(n: Uint32) returns (r: T.Acquired)
      modifies this
      ensures r == T.Acquire(old(available), old(closed), n)
      ensures n > 0 && old(closed) ==> r.WindowClosed?
      ensures r.MustWait? <==> n > 0 && !old(closed) && old(available) < n
      ensures closed == old(closed)
      ensures available == if r.Granted? then old(available) - n else old(available)
    {
      if n == 0 {
        return T.Granted;
      }
      if closed {
        return T.WindowClosed;
      }
      if available >= n {
        available := available - n;
        return T.Granted;
      }
      return T.MustWait;
    }

    method Release(n: Uint32)
      modifies this
      ensures closed == old(closed)
      ensures available == if n == 0 then old(available) else T.Release(old(available), n)
    {
      if n == 0 {
        return;
      }
      available := U32(available + n);
    }

    method Close()
      modifies this
      ensures closed && available == old(available)
    {
      closed := true;
    }
  }
}

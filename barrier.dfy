/** The physical barrier: a single open/closed flag. */
module Barrier {

  class BarrierService {
    /** True while the barrier is open. */
    var isOpen: bool

    /** A freshly started service reports a closed barrier. */
    constructor ()
      ensures !isOpen
    {
      isOpen := false;
    }

    /** Opens the barrier, whatever its prior state. */
    method Open()
      modifies this
      ensures isOpen
    {
      isOpen := true;
    }

    /** Closes the barrier, whatever its prior state. */
    method Close()
      modifies this
      ensures !isOpen
    {
      isOpen := false;
    }

    /** Reports the last value written, without changing it. */
    method GetStatus() returns (status: bool)
      ensures status == isOpen
    {
      status := isOpen;
    }
  }

  /** Opening twice leaves the barrier as opening once does, and so does
      closing twice; a read in between changes nothing. */
  method IdempotenceScenario(b: BarrierService)
    modifies b
    ensures !b.isOpen
  {
    b.Open();
    var s1 := b.GetStatus();
    b.Open();
    var s2 := b.GetStatus();
    assert s1 && s2;
    b.Close();
    b.Close();
    var s3 := b.GetStatus();
    assert !s3;
  }
}

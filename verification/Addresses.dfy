/** Memory addresses, and an allocator that may hand out any address not in use. */
module Addresses {

  type Ptr = nat

  method FreshPtr(used: set<Ptr>) returns (p: Ptr)
    ensures p !in used
  {
    p := 0;
    var rest := used;
    while rest != {}
      invariant forall u :: u in used ==> u in rest || u < p
      decreases |rest|
    {
      var u :| u in rest;
      if p <= u { p := u + 1; }
      rest := rest - {u};
    }
  }
}

/** The table catalog as the CRUD actions see it.  The actions only look
    up and print the `tables` dictionary, so the model passes its keys, in
    order, as a `seq<string>`; this module holds the normalisation a typed
    table name goes through before the lookup. */
module Catalog {
  import opened PyStr

  /** `input(...).upper().strip()`. */
  function TableName(typed: string): (name: string)
    ensures forall i :: 0 <= i < |name| ==> !('a' <= name[i] <= 'z')
  {
    var upper := Upper(typed);
    var name := Strip(upper);
    assert forall i :: 0 <= i < |name| ==> name[i] == upper[LeadingSpace(upper) + i];
    name
  }
}

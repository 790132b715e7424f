/** scripts/moddeg.py (and the same function in scripts/ec_utils.py):
    the modular degree from Magma, falling back to sympow. Each tool's
    outcome is a parameter: its value, or the exception it raises. */
module Moddeg {
  import opened Wrappers

  /** `get_modular_degree(E, label)`: sympow is consulted only when
      Magma raised RuntimeError; any other exception propagates. */
  function ModularDegree(magma: Result<int>, sympow: Result<int>): (r: Result<int>)
  {
    if magma.Err? && magma.error != RuntimeError then Err(magma.error)
    else if magma.Err? && sympow.Err? && sympow.error != RuntimeError then Err(sympow.error)
    else
      var degMagma := if magma.Ok? then magma.value else 0;
      var degSympow := if magma.Err? && sympow.Ok? then sympow.value else 0;
      Ok(if degMagma != 0 then
           if degSympow != 0 then
             // degSympow is only set when Magma raised, leaving degMagma 0
             assert false; degMagma
           else degMagma
         else if degSympow != 0 then degSympow
         else 0)
  }

  /** A non-zero Magma value is returned as it is, and sympow is never
      consulted when Magma did not raise. */
  lemma MagmaFirst(magma: Result<int>, sympow: Result<int>, sympow': Result<int>)
    requires magma.Ok?
    ensures ModularDegree(magma, sympow) == ModularDegree(magma, sympow')
    ensures magma.value != 0 ==> ModularDegree(magma, sympow) == magma
    ensures magma.value == 0 ==> ModularDegree(magma, sympow) == Ok(0)
  {
  }

  /** After a Magma RuntimeError: the sympow value if non-zero, else 0;
      a sympow exception other than RuntimeError propagates. */
  lemma SympowFallback(sympow: Result<int>)
    ensures sympow.Ok? ==> ModularDegree(Err(RuntimeError), sympow) == sympow
    ensures sympow == Err(RuntimeError) ==> ModularDegree(Err(RuntimeError), sympow) == Ok(0)
    ensures sympow.Err? && sympow.error != RuntimeError ==>
      ModularDegree(Err(RuntimeError), sympow) == sympow
  {
  }
}

/**
 * Script values (IValue) as an opaque tagged datatype. The engine's own
 * arithmetic, comparison and conversions are not modelled; the machine is
 * given them as uninterpreted functions.
 */
module Values {
  import opened Builtins

  datatype Value =
    | Undefined                 // ValueFactory.Create()
    | Null
    | Boolean(b: bool)
    | Number(n: int)            // decimal numbers restricted to integers
    | Str(s: Text)
    | Date(ticks: int)
    | Object(id: nat)           // an object instance, compared by reference
    | Skipped                   // the marker pushed for an omitted call argument
    | Ref(cell: nat)            // a variable (IVariable) of the machine, by reference
}

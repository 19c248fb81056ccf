/**
  The random generator `g` as a scripted stream of full-range 64-bit words:
  call number c returns `script[c]`.
 */
module Generator {
  import opened Uint64

  class ScriptedGenerator {
    /** The words the generator returns, in order. */
    const script: seq<u64>
    /** How many times the generator has been called so far. */
    var calls: nat

    constructor (script: seq<u64>)
      ensures this.script == script && calls == 0
    {
      this.script := script;
      calls := 0;
    }

    /** `gen()`: the next word of the script. */
    method Next() returns (r: u64)
      requires calls < |script|
      modifies this
      ensures calls == old(calls) + 1
      ensures r == script[old(calls)]
    {
      r := script[calls];
      calls := calls + 1;
    }
  }
}

/**
 * The module contract of the ecosystem (ForgeInterface). A forge is opaque to
 * the engine apart from its name, version and description and its `init`
 * operation, which receives the engine. What a forge's `init` does through the
 * engine is given here as data: the registrations it performs, in order, and
 * how the call ends.
 */
module Forges {
  import opened Php

  datatype Forge = Forge(
    name: string,          // get_name()
    version: string,       // get_version()
    description: string,   // get_description()
    script: InitScript)    // init(Engine $engine)

  /** The effect of calling a forge's `init`: it calls `registrar_forge` on the
      engine for each of `registers`, in order, and then ends as `ends` says. */
  datatype InitScript = InitScript(registers: seq<Registration>, ends: Ending)

  datatype Ending = Returns | Throws(thrown: Throwable)

  /** One call `registrar_forge(id, forge)`. */
  datatype Registration = Registration(id: string, forge: Forge)
}

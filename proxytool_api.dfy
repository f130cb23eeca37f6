/** The runtime side's naming convention, the counterpart of the generator's suffix. */
module ProxyToolApi {

  /** The suffix the runtime appends to the target's class name. */
  const SUFFIX: string := "$$Proxy"

  /** The binary class name the runtime loads for a target whose class name is `targetClassName`. */
  function CompanionClassName(targetClassName: string): (name: string)
    ensures |name| == |targetClassName| + |SUFFIX|
    ensures name[..|targetClassName|] == targetClassName && name[|targetClassName|..] == SUFFIX
  {
    targetClassName + SUFFIX
  }
}

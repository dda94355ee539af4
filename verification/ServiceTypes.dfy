/** The values that sites exchange and store: service definitions and the registry that holds them. */
module ServiceTypes {

  datatype Option<+T> = None | Some(value: T)

  datatype Headless = Headless(name: string, size: int, targetPort: int)

  datatype Target = Target(name: string, selector: string, targetPort: int, service: string)

  datatype ServiceInterface = ServiceInterface(
    address: string,
    protocol: string,
    port: int,
    eventChannel: bool,
    aggregate: string,
    headless: Option<Headless>,
    targets: seq<Target>,
    origin: string,
    alias: string)

  /** The decoded contents of the `skupper-services` file, and every index derived from it. */
  type Services = map<string, ServiceInterface>

  const CONTAINER := "internal.skupper.io/container"
  const HOST_SERVICE := "internal.skupper.io/host-service"

  ghost predicate WellKeyed(defs: Services) {
    forall n :: n in defs ==> defs[n].address == n
  }

  /** An origin that marks a definition as another site's. */
  predicate IsSiteTag(origin: string) {
    origin != "" && origin != "annotation"
  }

  predicate IsRemote(si: ServiceInterface) {
    IsSiteTag(si.origin)
  }

  /** The fields a site keeps in its indexes and advertises. */
  function Strip(si: ServiceInterface): ServiceInterface {
    ServiceInterface(si.address, si.protocol, si.port, false, "", si.headless, [], si.origin, "")
  }

  /** Two definitions that agree on everything that is propagated between sites. */
  predicate Agrees(a: ServiceInterface, b: ServiceInterface) {
    a.address == b.address && a.protocol == b.protocol && a.port == b.port && a.headless == b.headless
  }

  /** The definition a registry or message names `n` differs between the two maps in no way. */
  predicate SameAt(before: Services, after: Services, n: string) {
    (n in before <==> n in after) && (n in before ==> before[n] == after[n])
  }

  /**
   * A registry edit that the command line may make while the protocol runs: at most one key changes, and
   * it then holds a local definition, or only the targets of the old entry change, or a local
   * entry disappears.
   */
  ghost predicate CliEdit(before: Services, after: Services) {
    exists k :: CliEditAt(before, after, k)
  }

  ghost predicate CliEditAt(before: Services, after: Services, k: string) {
    && (forall n :: n != k ==> SameAt(before, after, n))
    && (k in after ==>
          || (after[k].address == k && after[k].origin == "")
          || (k in before && after[k] == before[k].(targets := after[k].targets)))
    && (k in before && k !in after ==> !IsRemote(before[k]))
  }
}

/**
 * The host configuration that VirtualMachine reads once from
 * /etc/vmscripts/vmconf.yml (vmscripts/lib/virtual_machine.rb:7-26), as an
 * immutable record handed to every operation, and the errors the
 * operations raise.
 */
module Host {
  import opened Strings

  /** One entry of the `networks` list. */
  datatype NetworkDef = NetworkDef(
    network: string,   // the first three dotted octets, e.g. "10.0.0"
    start: int,        // lowest last octet allowed
    end: int,          // highest last octet allowed
    nmask: string,
    gway: string,
    linkType: string)  // "bridged" or "routed"; other values are kept as written

  /** One entry of the `packages` catalog; an attribute may be absent (nil). */
  datatype PackageDef = PackageDef(name: string, mem: Option<int>, swap: Option<int>, storage: Option<int>)

  datatype Config = Config(
    localImages: string,     // paths.local_images
    haImages: string,        // paths.ha_images
    xenConfigDir: string,    // paths.xen_configs
    ksServer: string,        // kickstart.server
    ksKernelDir: string,     // kickstart.bootimages
    debianMirror: string,    // debootstrap_mirrors.debian
    ubuntuMirror: string,    // debootstrap_mirrors.ubuntu
    nameservers: seq<string>,
    networks: seq<NetworkDef>,
    packages: seq<PackageDef>,
    domain: string)

  /** The three package attributes `from_package` can be asked for. */
  datatype Attr = Mem | Swap | Storage

  /** Instance variables whose nil value makes a method raise NoMethodError or TypeError. */
  datatype Field = NameField | NetworkField | DistroField | VersionField | ArchField | StorageField

  datatype Error =
    | NetworkNotFound                          // "IP address is not within any defined network"
    | AddressOutOfRange                        // "IP address is outside the range of allowed IP addresses"
    | NoAttribute(attribute: Attr, package: string)  // "No attribute '...' found for package '...'"
    | NilField(field: Field)                   // a nil instance variable was dereferenced
    | MalformedLine(line: string)              // `line.split[2]` was nil in load_from_conf
    | NoSuchMethod(name: string)               // `method(name)` found no post-debootstrap variant

  datatype Result<+T> = Ok(value: T) | Err(error: Error) {
    predicate IsFailure() { Err? }
    function PropagateFailure<U>(): Result<U> requires Err? { Err(error) }
    function Extract(): T requires Ok? { value }
  }
}

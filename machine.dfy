/**
 * The VirtualMachine definition object (vmscripts/lib/virtual_machine.rb:38-71):
 * the parameter hash it is built from, the instance variables `initialize`
 * sets, and the construction itself.  No method of the class reassigns an
 * instance variable after `initialize`, so the object is an immutable value.
 */
module Machine {
  import opened Strings
  import opened Host
  import opened Network
  import opened Packages
  import opened Passwords

  /** The `params` hash; None stands for a missing (or nil) key. */
  datatype Params = Params(
    name: Option<string>,
    package: Option<string>,
    distro: Option<string>,
    version: Option<string>,
    arch: Option<string>,
    ip: Option<string>,
    mac: Option<string>,
    storage: Option<string>,
    rootpw: Option<string>,
    ha: Option<bool>,
    imagePath: Option<string>,
    swapPath: Option<string>,
    mem: Option<string>)

  const NoParams := Params(None, None, None, None, None, None, None, None, None, None, None, None, None)

  function Override<T>(base: Option<T>, extra: Option<T>): Option<T>
  {
    if extra.Some? then extra else base
  }

  /** Hash#merge: every key the second hash holds replaces the first's. */
  function Merge(base: Params, extra: Params): Params
  {
    Params(
      Override(base.name, extra.name), Override(base.package, extra.package),
      Override(base.distro, extra.distro), Override(base.version, extra.version),
      Override(base.arch, extra.arch), Override(base.ip, extra.ip), Override(base.mac, extra.mac),
      Override(base.storage, extra.storage), Override(base.rootpw, extra.rootpw),
      Override(base.ha, extra.ha), Override(base.imagePath, extra.imagePath),
      Override(base.swapPath, extra.swapPath), Override(base.mem, extra.mem))
  }

  /** Merging nothing changes nothing; merging is associative and idempotent on its right. */
  lemma MergeLaws(a: Params, b: Params, c: Params)
    ensures Merge(a, NoParams) == a && Merge(NoParams, a) == a
    ensures Merge(Merge(a, b), c) == Merge(a, Merge(b, c))
    ensures Merge(Merge(a, b), b) == Merge(a, b)
  {
  }

  /** The instance variables `initialize` sets (`@verbose` only gates logging). */
  datatype Vm = Vm(
    name: string,
    package: Option<string>,
    distro: Option<string>,
    version: Option<string>,
    arch: Option<string>,
    network: Option<NetInfo>,
    mem: Option<int>,
    swap: Option<int>,
    storage: Option<int>,
    rootpw: string,
    configFile: string,
    ha: bool,
    imagePath: string,
    swapPath: string,
    mntPath: string,
    chroot: string)

  /** The random draws construction may consume: three MAC octets and twelve password characters. */
  datatype Entropy = Entropy(mac: MacDraw, pw: PwDraws)

  /** `@network = network_settings(params[:ip], params[:mac]) unless params[:ip].nil?` */
  function ResolvedNetwork(cfg: Config, p: Params, e: Entropy): Result<Option<NetInfo>>
  {
    if p.ip.None? then Ok(None)
    else
      match NetworkFor(cfg.networks, cfg.nameservers, p.ip.value, p.mac, e.mac)
      case Err(err) => Err(err)
      case Ok(n) => Ok(Some(n))
  }

  /** Lines 48-52: memory and swap from the package, storage from params[:storage] if given. */
  function ResolvedSizes(cfg: Config, p: Params): Result<Sizes>
  {
    if p.package.None? then Ok(NoSizes)
    else
      var pkg := p.package.value;
      var mem :- PackageAttribute(cfg.packages, pkg, Mem);
      var swap :- PackageAttribute(cfg.packages, pkg, Swap);
      var storage :- if p.storage.Some? then Ok(ToI(p.storage.value)) else PackageAttribute(cfg.packages, pkg, Storage);
      Ok(Sizes(Some(mem), Some(swap), Some(storage)))
  }

  function ImagesRoot(cfg: Config, ha: bool): string
  {
    if ha then cfg.haImages else cfg.localImages
  }

  /** The object `VirtualMachine.new(params)` builds, or the error it raises. */
  function Instance(cfg: Config, p: Params, e: Entropy): Result<Vm>
  {
    var network :- ResolvedNetwork(cfg, p, e);
    var sizes :- ResolvedSizes(cfg, p);
    var rootpw := if p.rootpw.Some? then p.rootpw.value else Password(e.pw);
    if p.name.None? then Err(NilField(NameField))   // XEN_CONFIG_DIR + '/' + nil
    else
      var name := p.name.value;
      var ha := p.ha == Some(true);
      var mnt := "/mnt/" + name;
      Ok(Vm(name, p.package, p.distro, p.version, p.arch, network, sizes.mem, sizes.swap, sizes.storage, rootpw,
            cfg.xenConfigDir + "/" + name, ha,
            if p.imagePath.Some? then p.imagePath.value else ImagesRoot(cfg, ha) + "/" + name + ".img",
            if p.swapPath.Some? then p.swapPath.value else ImagesRoot(cfg, ha) + "/" + name + "-swap.img",
            mnt, "/usr/sbin/chroot " + mnt + " /bin/bash -c"))
  }

  /** `initialize`, calling `network_settings`, the package wrappers and `random_pw` as the source does. */
  method Initialize(cfg: Config, p: Params, e: Entropy) returns (r: Result<Vm>)
    ensures r == Instance(cfg, p, e)
  {
    var network: Option<NetInfo> := None;
    if p.ip.Some? {
      var n := NetworkSettings(cfg, p.ip.value, p.mac, e.mac);
      if n.Err? {
        return Err(n.error);
      }
      network := Some(n.value);
    }
    var sizes := NoSizes;
    if p.package.Some? {
      var mem := FromPackage(cfg.packages, p.package.value, Mem);
      if mem.Err? {
        return Err(mem.error);
      }
      var swap := FromPackage(cfg.packages, p.package.value, Swap);
      if swap.Err? {
        return Err(swap.error);
      }
      var storage: int;
      if p.storage.Some? {
        storage := ToI(p.storage.value);
      } else {
        var s := FromPackage(cfg.packages, p.package.value, Storage);
        if s.Err? {
          return Err(s.error);
        }
        storage := s.value;
      }
      sizes := Sizes(Some(mem.value), Some(swap.value), Some(storage));
    }
    var rootpw: string;
    if p.rootpw.Some? {
      rootpw := p.rootpw.value;
    } else {
      rootpw := RandomPw(e.pw);
    }
    if p.name.None? {
      return Err(NilField(NameField));
    }
    var name := p.name.value;
    var ha := p.ha == Some(true);
    var imagePath := if p.imagePath.Some? then p.imagePath.value else ImagesRoot(cfg, ha) + "/" + name + ".img";
    var swapPath := if p.swapPath.Some? then p.swapPath.value else ImagesRoot(cfg, ha) + "/" + name + "-swap.img";
    var mnt := "/mnt/" + name;
    r := Ok(Vm(name, p.package, p.distro, p.version, p.arch, network, sizes.mem, sizes.swap, sizes.storage, rootpw,
               cfg.xenConfigDir + "/" + name, ha, imagePath, swapPath, mnt, "/usr/sbin/chroot " + mnt + " /bin/bash -c"));
  }

  /**
   * Construction succeeds exactly when the address (if any) resolves, the
   * package (if any) has memory, swap and (unless params[:storage] is given)
   * storage, and a name is given.
   */
  lemma InstanceSucceeds(cfg: Config, p: Params, e: Entropy)
    ensures Instance(cfg, p, e).Ok? <==>
      && (p.ip.Some? ==> NetworkFor(cfg.networks, cfg.nameservers, p.ip.value, p.mac, e.mac).Ok?)
      && (p.package.Some? ==>
            && PackageAttribute(cfg.packages, p.package.value, Mem).Ok?
            && PackageAttribute(cfg.packages, p.package.value, Swap).Ok?
            && (p.storage.None? ==> PackageAttribute(cfg.packages, p.package.value, Storage).Ok?))
      && p.name.Some?
  {
  }

  /**
   * The sizes of a constructed VM: memory and swap from the package, storage
   * from params[:storage].to_i when given and otherwise from the package;
   * none of the three without a package.
   */
  lemma InstanceSizes(cfg: Config, p: Params, e: Entropy)
    requires Instance(cfg, p, e).Ok?
    ensures var vm := Instance(cfg, p, e).value;
      && (p.package.None? ==> vm.mem.None? && vm.swap.None? && vm.storage.None?)
      && (p.package.Some? ==>
            && vm.mem == Some(PackageAttribute(cfg.packages, p.package.value, Mem).value)
            && vm.swap == Some(PackageAttribute(cfg.packages, p.package.value, Swap).value)
            && vm.storage == Some(if p.storage.Some? then ToI(p.storage.value)
                                  else PackageAttribute(cfg.packages, p.package.value, Storage).value))
  {
  }

  /**
   * The paths of a constructed VM: image and swap file under the HA or the
   * local images directory unless given, the mount point under /mnt and the
   * config file under the Xen config directory, all named after the VM.
   */
  lemma InstancePaths(cfg: Config, p: Params, e: Entropy)
    requires Instance(cfg, p, e).Ok?
    ensures var vm := Instance(cfg, p, e).value;
      && vm.name == p.name.value
      && vm.ha == (p.ha == Some(true))
      && vm.imagePath == (if p.imagePath.Some? then p.imagePath.value
                          else (if vm.ha then cfg.haImages else cfg.localImages) + "/" + vm.name + ".img")
      && vm.swapPath == (if p.swapPath.Some? then p.swapPath.value
                         else (if vm.ha then cfg.haImages else cfg.localImages) + "/" + vm.name + "-swap.img")
      && vm.mntPath == "/mnt/" + vm.name
      && vm.configFile == cfg.xenConfigDir + "/" + vm.name
  {
  }

  /** The network of a constructed VM is the resolution of params[:ip] and params[:mac]; none without an address. */
  lemma InstanceNetwork(cfg: Config, p: Params, e: Entropy)
    requires Instance(cfg, p, e).Ok?
    ensures var vm := Instance(cfg, p, e).value;
      && (p.ip.None? ==> vm.network.None?)
      && (p.ip.Some? ==> vm.network == Some(NetworkFor(cfg.networks, cfg.nameservers, p.ip.value, p.mac, e.mac).value))
      && vm.rootpw == (if p.rootpw.Some? then p.rootpw.value else Password(e.pw))
  {
  }

  /** A key given in the second hash decides the field it feeds. */
  lemma InstanceOverrides(cfg: Config, base: Params, extra: Params, e: Entropy)
    requires Instance(cfg, Merge(base, extra), e).Ok?
    ensures var vm := Instance(cfg, Merge(base, extra), e).value;
      && (extra.name.Some? ==> vm.name == extra.name.value)
      && (extra.distro.Some? ==> vm.distro == extra.distro)
      && (extra.imagePath.Some? ==> vm.imagePath == extra.imagePath.value)
      && (extra.ha.Some? ==> vm.ha == (extra.ha == Some(true)))
  {
    InstancePaths(cfg, Merge(base, extra), e);
  }
}

/**
 * The configuration a debootstrapped system receives: the five
 * `<distro>_<version>_post_debootstrap` call sequences and the dispatch by
 * method name that `post_debootstrap_commands` makes
 * (vmscripts/lib/virtual_machine.rb:262-265, 636-821).  A step is the name
 * of the method called and the console it is given, if any; what each step
 * writes or runs is outside the model.
 */
module Bootstrap {
  import opened Strings
  import opened Host
  import opened Machine

  /** The private methods the sequences call. */
  datatype Kind =
    | CreateFstab | CreateHosts | CreateHostname | CreateNetworkInterfaces
    | ModifySecuretty | ModifyInittab | CreateTimezone | CreateDev | AddAptSources
    | CreateKernelImgConf | InstallKernel | InstallGrub | SetLocales | CreateGrubMenu
    | InstallLanguagePack | CreateRootPassword | DisableHwclock | CreateEventDConsole
    | SetupKeys | CleanApt

  /** One call: the method and its console argument (None when called without one). */
  datatype Step = Step(kind: Kind, console: Option<string>)

  /** Lines 636-673; `create_dev` is commented out. */
  const Debian4: seq<Step> := [
    Step(CreateFstab, None), Step(CreateHosts, None), Step(CreateHostname, None),
    Step(CreateNetworkInterfaces, None), Step(ModifySecuretty, Some("xvc0")), Step(CreateTimezone, None),
    Step(AddAptSources, None), Step(CreateKernelImgConf, None), Step(InstallKernel, None),
    Step(InstallGrub, None), Step(SetLocales, None), Step(CreateGrubMenu, Some("xvc0")),
    Step(CreateRootPassword, None), Step(DisableHwclock, None), Step(SetupKeys, None), Step(CleanApt, None)]

  /** Lines 675-712. */
  const Debian5: seq<Step> := [
    Step(CreateFstab, None), Step(CreateHosts, None), Step(CreateHostname, None),
    Step(CreateNetworkInterfaces, None), Step(ModifySecuretty, Some("hvc0")), Step(ModifyInittab, Some("hvc0")),
    Step(CreateTimezone, None), Step(CreateDev, None), Step(AddAptSources, None),
    Step(CreateKernelImgConf, None), Step(InstallKernel, None), Step(InstallGrub, None),
    Step(SetLocales, None), Step(CreateGrubMenu, Some("hvc0")), Step(CreateRootPassword, None),
    Step(DisableHwclock, None), Step(SetupKeys, None), Step(CleanApt, None)]

  /** Lines 714-749. */
  const Ubuntu804: seq<Step> := [
    Step(CreateFstab, None), Step(CreateHosts, None), Step(CreateHostname, None),
    Step(CreateNetworkInterfaces, None), Step(CreateTimezone, None), Step(AddAptSources, None),
    Step(CreateDev, None), Step(CreateKernelImgConf, None), Step(InstallKernel, None),
    Step(InstallGrub, None), Step(CreateGrubMenu, Some("xvc0")), Step(InstallLanguagePack, None),
    Step(CreateRootPassword, None), Step(DisableHwclock, None), Step(CreateEventDConsole, Some("xvc0")),
    Step(SetupKeys, None), Step(CleanApt, None)]

  /** Lines 751-786: grub is installed before the kernel-img.conf is written. */
  const Ubuntu810: seq<Step> := [
    Step(CreateFstab, None), Step(CreateHosts, None), Step(CreateHostname, None),
    Step(CreateNetworkInterfaces, None), Step(CreateTimezone, None), Step(AddAptSources, None),
    Step(CreateDev, None), Step(InstallGrub, None), Step(CreateKernelImgConf, None),
    Step(InstallKernel, None), Step(CreateGrubMenu, Some("hvc0")), Step(InstallLanguagePack, None),
    Step(CreateRootPassword, None), Step(DisableHwclock, None), Step(CreateEventDConsole, Some("hvc0")),
    Step(SetupKeys, None), Step(CleanApt, None)]

  /** Lines 788-821: no kernel-img.conf, no console file, a grub menu without console. */
  const Ubuntu904: seq<Step> := [
    Step(CreateFstab, None), Step(CreateHosts, None), Step(CreateHostname, None),
    Step(CreateNetworkInterfaces, None), Step(CreateTimezone, None), Step(AddAptSources, None),
    Step(CreateDev, None), Step(InstallGrub, None), Step(InstallKernel, None),
    Step(CreateGrubMenu, None), Step(InstallLanguagePack, None), Step(CreateRootPassword, None),
    Step(DisableHwclock, None), Step(SetupKeys, None), Step(CleanApt, None)]

  /** The name `post_debootstrap_commands` looks up: `"#{@distro}_#{@version}_post_debootstrap"`. */
  function MethodName(distro: string, version: string): string
  {
    distro + "_" + version + "_post_debootstrap"
  }

  /** `method(name)` among the five sequences; any other name raises NameError. */
  function StepsNamed(name: string): Result<seq<Step>>
  {
    if name == MethodName("debian", "4") then Ok(Debian4)
    else if name == MethodName("debian", "5") then Ok(Debian5)
    else if name == MethodName("ubuntu", "804") then Ok(Ubuntu804)
    else if name == MethodName("ubuntu", "810") then Ok(Ubuntu810)
    else if name == MethodName("ubuntu", "904") then Ok(Ubuntu904)
    else Err(NoSuchMethod(name))
  }

  /** `post_debootstrap_commands`. */
  function PostDebootstrapCommands(vm: Vm): Result<seq<Step>>
  {
    StepsNamed(MethodName(Show(vm.distro), Show(vm.version)))
  }

  /**
   * A method name determines the distro and version it was built from,
   * whatever the distro holds, when the candidate distro and version hold
   * no '_'.
   */
  lemma MethodNameParts(d: string, v: string, a: string, b: string)
    requires Lacks(a, '_') && Lacks(b, '_')
    ensures MethodName(d, v) == MethodName(a, b) <==> d == a && v == b
  {
    if MethodName(d, v) == MethodName(a, b) {
      var x := d + "_" + v;
      var y := a + "_" + b;
      assert |x| == |y|;
      assert x == MethodName(d, v)[..|x|] && y == MethodName(a, b)[..|y|];
      assert x[|d|] == '_';
      OnlySeparator(a, b, |d|);
      assert d == x[..|d|] && a == y[..|a|];
      assert v == x[|d| + 1..] && b == y[|a| + 1..];
    }
  }

  /** In a + "_" + b, where neither part holds '_', the only '_' is the separator. */
  lemma OnlySeparator(a: string, b: string, k: nat)
    requires Lacks(a, '_') && Lacks(b, '_') && k < |a + "_" + b| && (a + "_" + b)[k] == '_'
    ensures k == |a|
  {
    assert forall i :: 0 <= i < |a| ==> (a + "_" + b)[i] == a[i];
    assert forall i :: |a| < i < |a + "_" + b| ==> (a + "_" + b)[i] == b[i - |a| - 1];
  }

  /**
   * The dispatch selects debian 4 or 5 or ubuntu 804, 810 or 904 by the
   * VM's distro and version, and raises for every other pair (ubuntu
   * "8.04" included).
   */
  lemma DispatchByRelease(vm: Vm)
    ensures var d, v := Show(vm.distro), Show(vm.version);
      PostDebootstrapCommands(vm) ==
        if d == "debian" && v == "4" then Ok(Debian4)
        else if d == "debian" && v == "5" then Ok(Debian5)
        else if d == "ubuntu" && v == "804" then Ok(Ubuntu804)
        else if d == "ubuntu" && v == "810" then Ok(Ubuntu810)
        else if d == "ubuntu" && v == "904" then Ok(Ubuntu904)
        else Err(NoSuchMethod(MethodName(d, v)))
  {
    var d, v := Show(vm.distro), Show(vm.version);
    assert Lacks("debian", '_') && Lacks("ubuntu", '_');
    assert Lacks("4", '_') && Lacks("5", '_') && Lacks("804", '_') && Lacks("810", '_') && Lacks("904", '_');
    MethodNameParts(d, v, "debian", "4");
    MethodNameParts(d, v, "debian", "5");
    MethodNameParts(d, v, "ubuntu", "804");
    MethodNameParts(d, v, "ubuntu", "810");
    MethodNameParts(d, v, "ubuntu", "904");
  }

  // ---------------------------------------------------------------------
  // What every sequence guarantees

  predicate Has(ss: seq<Step>, k: Kind)
  {
    exists i :: 0 <= i < |ss| && ss[i].kind == k
  }

  /** Both methods are called, and every call of `a` comes before every call of `b`. */
  predicate Precedes(ss: seq<Step>, a: Kind, b: Kind)
  {
    && Has(ss, a) && Has(ss, b)
    && forall i, j :: 0 <= i < |ss| && 0 <= j < |ss| && ss[i].kind == a && ss[j].kind == b ==> i < j
  }

  /** No method is called twice. */
  predicate CalledOnce(ss: seq<Step>)
  {
    forall i, j :: 0 <= i < j < |ss| ==> ss[i].kind != ss[j].kind
  }

  /** Every console argument in the sequence is the same console. */
  predicate OneConsole(ss: seq<Step>)
  {
    forall i, j :: 0 <= i < |ss| && 0 <= j < |ss| && ss[i].console.Some? && ss[j].console.Some? ==>
      ss[i].console == ss[j].console
  }

  /**
   * The guarantees of every sequence: apt sources before the kernel, kernel
   * and grub before the grub menu, keys then apt cleaning last, no method
   * twice, and one console throughout.
   */
  predicate WellOrdered(ss: seq<Step>)
  {
    && |ss| >= 2
    && Precedes(ss, AddAptSources, InstallKernel)
    && Precedes(ss, InstallKernel, CreateGrubMenu)
    && Precedes(ss, InstallGrub, CreateGrubMenu)
    && ss[|ss| - 2] == Step(SetupKeys, None) && ss[|ss| - 1] == Step(CleanApt, None)
    && CalledOnce(ss)
    && OneConsole(ss)
  }

  /** `pos` gives the position of each call of `ss`; it is a proof device for the lemmas below. */
  predicate PositionsBy(ss: seq<Step>, pos: Kind -> int)
  {
    forall i :: 0 <= i < |ss| ==> pos(ss[i].kind) == i
  }

  lemma PositionsCalledOnce(ss: seq<Step>, pos: Kind -> int)
    requires PositionsBy(ss, pos)
    ensures CalledOnce(ss)
  {
  }

  lemma PositionsPrecedes(ss: seq<Step>, pos: Kind -> int, a: Kind, b: Kind)
    requires PositionsBy(ss, pos) && 0 <= pos(a) < pos(b) < |ss| && ss[pos(a)].kind == a && ss[pos(b)].kind == b
    ensures Precedes(ss, a, b)
  {
  }

  lemma PositionsAbsent(ss: seq<Step>, pos: Kind -> int, k: Kind)
    requires PositionsBy(ss, pos) && pos(k) < 0
    ensures !Has(ss, k)
  {
  }

  function Debian4Order(k: Kind): int
  {
    match k
    case CreateFstab => 0 case CreateHosts => 1 case CreateHostname => 2 case CreateNetworkInterfaces => 3
    case ModifySecuretty => 4 case CreateTimezone => 5 case AddAptSources => 6 case CreateKernelImgConf => 7
    case InstallKernel => 8 case InstallGrub => 9 case SetLocales => 10 case CreateGrubMenu => 11
    case CreateRootPassword => 12 case DisableHwclock => 13 case SetupKeys => 14 case CleanApt => 15
    case _ => -1
  }

  function Debian5Order(k: Kind): int
  {
    match k
    case CreateFstab => 0 case CreateHosts => 1 case CreateHostname => 2 case CreateNetworkInterfaces => 3
    case ModifySecuretty => 4 case ModifyInittab => 5 case CreateTimezone => 6 case CreateDev => 7
    case AddAptSources => 8 case CreateKernelImgConf => 9 case InstallKernel => 10 case InstallGrub => 11
    case SetLocales => 12 case CreateGrubMenu => 13 case CreateRootPassword => 14 case DisableHwclock => 15
    case SetupKeys => 16 case CleanApt => 17
    case _ => -1
  }

  function Ubuntu804Order(k: Kind): int
  {
    match k
    case CreateFstab => 0 case CreateHosts => 1 case CreateHostname => 2 case CreateNetworkInterfaces => 3
    case CreateTimezone => 4 case AddAptSources => 5 case CreateDev => 6 case CreateKernelImgConf => 7
    case InstallKernel => 8 case InstallGrub => 9 case CreateGrubMenu => 10 case InstallLanguagePack => 11
    case CreateRootPassword => 12 case DisableHwclock => 13 case CreateEventDConsole => 14
    case SetupKeys => 15 case CleanApt => 16
    case _ => -1
  }

  function Ubuntu810Order(k: Kind): int
  {
    match k
    case CreateFstab => 0 case CreateHosts => 1 case CreateHostname => 2 case CreateNetworkInterfaces => 3
    case CreateTimezone => 4 case AddAptSources => 5 case CreateDev => 6 case InstallGrub => 7
    case CreateKernelImgConf => 8 case InstallKernel => 9 case CreateGrubMenu => 10 case InstallLanguagePack => 11
    case CreateRootPassword => 12 case DisableHwclock => 13 case CreateEventDConsole => 14
    case SetupKeys => 15 case CleanApt => 16
    case _ => -1
  }

  function Ubuntu904Order(k: Kind): int
  {
    match k
    case CreateFstab => 0 case CreateHosts => 1 case CreateHostname => 2 case CreateNetworkInterfaces => 3
    case CreateTimezone => 4 case AddAptSources => 5 case CreateDev => 6 case InstallGrub => 7
    case InstallKernel => 8 case CreateGrubMenu => 9 case InstallLanguagePack => 10
    case CreateRootPassword => 11 case DisableHwclock => 12 case SetupKeys => 13 case CleanApt => 14
    case _ => -1
  }

  /** The guarantees, from the positions of the calls concerned. */
  lemma WellOrderedBy(ss: seq<Step>, pos: Kind -> int)
    requires PositionsBy(ss, pos) && OneConsole(ss) && |ss| >= 2
    requires 0 <= pos(AddAptSources) < pos(InstallKernel) < pos(CreateGrubMenu) < |ss|
    requires 0 <= pos(InstallGrub) < pos(CreateGrubMenu)
    requires ss[pos(AddAptSources)].kind == AddAptSources && ss[pos(InstallKernel)].kind == InstallKernel
    requires ss[pos(InstallGrub)].kind == InstallGrub && ss[pos(CreateGrubMenu)].kind == CreateGrubMenu
    requires ss[|ss| - 2] == Step(SetupKeys, None) && ss[|ss| - 1] == Step(CleanApt, None)
    ensures WellOrdered(ss)
  {
    PositionsCalledOnce(ss, pos);
    PositionsPrecedes(ss, pos, AddAptSources, InstallKernel);
    PositionsPrecedes(ss, pos, InstallKernel, CreateGrubMenu);
    PositionsPrecedes(ss, pos, InstallGrub, CreateGrubMenu);
  }

  lemma Debian4Positions()
    ensures PositionsBy(Debian4, Debian4Order)
  {
  }

  lemma Debian4Consoles()
    ensures OneConsole(Debian4)
  {
    assert forall i :: 0 <= i < |Debian4| && Debian4[i].console.Some? ==> Debian4[i].console == Some("xvc0");
  }

  lemma Debian4WellOrdered()
    ensures WellOrdered(Debian4)
  {
    Debian4Positions();
    Debian4Consoles();
    assert Debian4[6].kind == AddAptSources && Debian4[8].kind == InstallKernel;
    assert Debian4[9].kind == InstallGrub && Debian4[11].kind == CreateGrubMenu;
    WellOrderedBy(Debian4, Debian4Order);
  }

  lemma Debian5Positions()
    ensures PositionsBy(Debian5, Debian5Order)
  {
  }

  lemma Debian5Consoles()
    ensures OneConsole(Debian5)
  {
    assert forall i :: 0 <= i < |Debian5| && Debian5[i].console.Some? ==> Debian5[i].console == Some("hvc0");
  }

  lemma Debian5WellOrdered()
    ensures WellOrdered(Debian5)
  {
    Debian5Positions();
    Debian5Consoles();
    assert Debian5[8].kind == AddAptSources && Debian5[10].kind == InstallKernel;
    assert Debian5[11].kind == InstallGrub && Debian5[13].kind == CreateGrubMenu;
    WellOrderedBy(Debian5, Debian5Order);
  }

  lemma Ubuntu804Positions()
    ensures PositionsBy(Ubuntu804, Ubuntu804Order)
  {
  }

  lemma Ubuntu804Consoles()
    ensures OneConsole(Ubuntu804)
  {
    assert forall i :: 0 <= i < |Ubuntu804| && Ubuntu804[i].console.Some? ==> Ubuntu804[i].console == Some("xvc0");
  }

  lemma Ubuntu804WellOrdered()
    ensures WellOrdered(Ubuntu804)
  {
    Ubuntu804Positions();
    Ubuntu804Consoles();
    assert Ubuntu804[5].kind == AddAptSources && Ubuntu804[8].kind == InstallKernel;
    assert Ubuntu804[9].kind == InstallGrub && Ubuntu804[10].kind == CreateGrubMenu;
    WellOrderedBy(Ubuntu804, Ubuntu804Order);
  }

  lemma Ubuntu810Positions()
    ensures PositionsBy(Ubuntu810, Ubuntu810Order)
  {
  }

  lemma Ubuntu810Consoles()
    ensures OneConsole(Ubuntu810)
  {
    assert forall i :: 0 <= i < |Ubuntu810| && Ubuntu810[i].console.Some? ==> Ubuntu810[i].console == Some("hvc0");
  }

  lemma Ubuntu810WellOrdered()
    ensures WellOrdered(Ubuntu810)
  {
    Ubuntu810Positions();
    Ubuntu810Consoles();
    assert Ubuntu810[5].kind == AddAptSources && Ubuntu810[9].kind == InstallKernel;
    assert Ubuntu810[7].kind == InstallGrub && Ubuntu810[10].kind == CreateGrubMenu;
    WellOrderedBy(Ubuntu810, Ubuntu810Order);
  }

  lemma Ubuntu904Positions()
    ensures PositionsBy(Ubuntu904, Ubuntu904Order)
  {
  }

  lemma Ubuntu904Consoles()
    ensures OneConsole(Ubuntu904)
  {
    assert forall i :: 0 <= i < |Ubuntu904| ==> Ubuntu904[i].console.None?;
  }

  lemma Ubuntu904WellOrdered()
    ensures WellOrdered(Ubuntu904)
  {
    Ubuntu904Positions();
    Ubuntu904Consoles();
    assert Ubuntu904[5].kind == AddAptSources && Ubuntu904[8].kind == InstallKernel;
    assert Ubuntu904[7].kind == InstallGrub && Ubuntu904[9].kind == CreateGrubMenu;
    WellOrderedBy(Ubuntu904, Ubuntu904Order);
  }

  /** Whatever sequence the dispatch selects keeps every guarantee. */
  lemma DispatchedWellOrdered(vm: Vm)
    requires PostDebootstrapCommands(vm).Ok?
    ensures WellOrdered(PostDebootstrapCommands(vm).value)
  {
    DispatchByRelease(vm);
    Debian4WellOrdered();
    Debian5WellOrdered();
    Ubuntu804WellOrdered();
    Ubuntu810WellOrdered();
    Ubuntu904WellOrdered();
  }

  // ---------------------------------------------------------------------
  // Where the sequences differ

  /**
   * Debian 4 never creates /dev; debian 5 and the three ubuntu releases do,
   * debian 5 before the apt sources and ubuntu after them.
   */
  lemma CreateDevWhere()
    ensures !Has(Debian4, CreateDev)
    ensures Precedes(Debian5, CreateDev, AddAptSources)
    ensures Precedes(Ubuntu804, AddAptSources, CreateDev)
    ensures Precedes(Ubuntu810, AddAptSources, CreateDev)
    ensures Precedes(Ubuntu904, AddAptSources, CreateDev)
  {
    Debian4Positions();
    Debian5Positions();
    Ubuntu804Positions();
    Ubuntu810Positions();
    Ubuntu904Positions();
    PositionsAbsent(Debian4, Debian4Order, CreateDev);
    PositionsPrecedes(Debian5, Debian5Order, CreateDev, AddAptSources);
    PositionsPrecedes(Ubuntu804, Ubuntu804Order, AddAptSources, CreateDev);
    PositionsPrecedes(Ubuntu810, Ubuntu810Order, AddAptSources, CreateDev);
    PositionsPrecedes(Ubuntu904, Ubuntu904Order, AddAptSources, CreateDev);
  }

  /**
   * Ubuntu 904 writes no kernel-img.conf, touches no console (no securetty,
   * inittab or event.d step) and writes the grub menu without a console.
   */
  lemma Ubuntu904Bare()
    ensures !Has(Ubuntu904, CreateKernelImgConf)
    ensures !Has(Ubuntu904, ModifySecuretty) && !Has(Ubuntu904, ModifyInittab) && !Has(Ubuntu904, CreateEventDConsole)
    ensures forall i :: 0 <= i < |Ubuntu904| && Ubuntu904[i].kind == CreateGrubMenu ==> Ubuntu904[i].console.None?
  {
    Ubuntu904Positions();
    PositionsAbsent(Ubuntu904, Ubuntu904Order, CreateKernelImgConf);
    PositionsAbsent(Ubuntu904, Ubuntu904Order, ModifySecuretty);
    PositionsAbsent(Ubuntu904, Ubuntu904Order, ModifyInittab);
    PositionsAbsent(Ubuntu904, Ubuntu904Order, CreateEventDConsole);
  }

  /**
   * The console as each release names it: xvc0 for debian 4 and ubuntu
   * 804, hvc0 for debian 5 and ubuntu 810, which is the console the grub
   * menu gets.
   */
  lemma GrubConsole()
    ensures Debian4[11] == Step(CreateGrubMenu, Some("xvc0")) && Ubuntu804[10] == Step(CreateGrubMenu, Some("xvc0"))
    ensures Debian5[13] == Step(CreateGrubMenu, Some("hvc0")) && Ubuntu810[10] == Step(CreateGrubMenu, Some("hvc0"))
  {
  }
}

/**
 * The strings a VirtualMachine builds for the shell and for the kickstart
 * server: `distro_string`, `version_alias`, `debootstrap`, `dd_img_file`,
 * `dd_swap_img` and `kickstart_builder_url`
 * (vmscripts/lib/virtual_machine.rb:144-169, 213-260, 355-361).
 */
module Commands {
  import opened Strings
  import opened Host
  import opened Network
  import opened Machine
  import Kickstart

  // ---------------------------------------------------------------------
  // distro_string

  /** `@distro + '-' + @version + '-' + @arch`; a nil operand raises. */
  function DistroString(vm: Vm): (r: Result<string>)
    ensures r.Ok? <==> vm.distro.Some? && vm.version.Some? && vm.arch.Some?
  {
    if vm.distro.None? then Err(NilField(DistroField))
    else if vm.version.None? then Err(NilField(VersionField))
    else if vm.arch.None? then Err(NilField(ArchField))
    else Ok(JoinWith([vm.distro.value, vm.version.value, vm.arch.value], '-'))
  }

  /**
   * `split('-')` undoes `distro_string` when no part holds '-' and the arch
   * is not empty (Ruby drops trailing empty fields).
   */
  lemma DistroStringSplit(vm: Vm)
    requires vm.distro.Some? && vm.version.Some? && vm.arch.Some?
    requires Lacks(vm.distro.value, '-') && Lacks(vm.version.value, '-') && Lacks(vm.arch.value, '-')
    requires vm.arch.value != ""
    ensures RubySplit(DistroString(vm).value, '-') == [vm.distro.value, vm.version.value, vm.arch.value]
  {
    RubySplitJoin([vm.distro.value, vm.version.value, vm.arch.value], '-');
  }

  // ---------------------------------------------------------------------
  // version_alias

  const DebianAliases: set<string> := {"etch", "lenny"}
  const UbuntuAliases: set<string> := {"hardy", "intrepid", "jaunty"}

  /** `version_alias`: the release code name, nil for anything else. */
  function VersionAlias(distro: Option<string>, version: Option<string>): (r: Option<string>)
    ensures r.Some? ==> version.Some?
    ensures r.Some? ==>
      || (distro == Some("debian") && r.value in DebianAliases)
      || (distro == Some("ubuntu") && r.value in UbuntuAliases)
  {
    if distro == Some("debian") then
      if version == Some("4") then Some("etch")
      else if version == Some("5") then Some("lenny")
      else None
    else if distro == Some("ubuntu") then
      if version == Some("8.04") || version == Some("804") then Some("hardy")
      else if version == Some("8.10") || version == Some("810") then Some("intrepid")
      else if version == Some("9.04") || version == Some("904") then Some("jaunty")
      else None
    else None
  }

  /**
   * Two releases with the same code name are the same distro, and their
   * versions differ at most by the dots ("8.04" and "804").
   */
  lemma AliasDeterminesRelease(d1: Option<string>, v1: Option<string>, d2: Option<string>, v2: Option<string>)
    requires VersionAlias(d1, v1).Some? && VersionAlias(d1, v1) == VersionAlias(d2, v2)
    ensures d1 == d2
    ensures RemoveChars(v1.value, {'.'}) == RemoveChars(v2.value, {'.'})
  {
    DottedVersions();
  }

  /** The dotted ubuntu versions lose their dot to become the undotted ones. */
  lemma DottedVersions()
    ensures RemoveChars("8.04", {'.'}) == "804" && RemoveChars("8.10", {'.'}) == "810"
    ensures RemoveChars("9.04", {'.'}) == "904"
  {
    DropDot('8', '0', '4');
    DropDot('8', '1', '0');
    DropDot('9', '0', '4');
  }

  lemma DropDot(a: char, b: char, c: char)
    requires a != '.' && b != '.' && c != '.'
    ensures RemoveChars([a, '.', b, c], {'.'}) == [a, b, c]
  {
    var s := [a, '.', b, c];
    assert s[1..] == ['.', b, c] && s[1..][1..] == [b, c] && [b, c][1..] == [c] && [c][1..] == [];
    assert RemoveChars([c], {'.'}) == [c] + RemoveChars([], {'.'}) == [c];
    assert RemoveChars([b, c], {'.'}) == [b] + RemoveChars([c], {'.'}) == [b, c];
    assert RemoveChars(['.', b, c], {'.'}) == [b, c];
  }

  // ---------------------------------------------------------------------
  // debootstrap

  /** The packages of the `--include=` option; None where `packages` is left nil. */
  function Includes(distro: string, version: Option<string>, arch: Option<string>): Option<seq<string>>
  {
    var xen := if arch == Some("i386") then ["libc6-xen"] else [];
    if distro == "debian" then
      if version == Some("4") then Some(["openssh-server", "locales"] + xen)
      else if version == Some("5") then Some(["openssh-server", "locales", "udev"])
      else None
    else if version == Some("804") || version == Some("810") || version == Some("904") then Some(["openssh-server"] + xen)
    else None
  }

  /** `packages` as interpolated: nil shows as nothing. */
  function IncludeOption(pkgs: Option<seq<string>>): string
  {
    match pkgs
    case None => ""
    case Some(ps) => "--include=" + JoinWith(ps, ',')
  }

  const Components := "--components=" + "main,universe,multiverse"

  /** The words of the debootstrap command, None for a distro other than debian and ubuntu. */
  function DebootstrapArgs(cfg: Config, vm: Vm): Option<seq<string>>
  {
    if vm.distro == Some("debian") then
      Some(["debootstrap", "--arch=" + Show(vm.arch), IncludeOption(Includes("debian", vm.version, vm.arch)),
            Show(VersionAlias(vm.distro, vm.version)), vm.mntPath, cfg.debianMirror])
    else if vm.distro == Some("ubuntu") then
      Some(["debootstrap", "--arch=" + Show(vm.arch), IncludeOption(Includes("ubuntu", vm.version, vm.arch)),
            Components, Show(VersionAlias(vm.distro, vm.version)), vm.mntPath, cfg.ubuntuMirror])
    else None
  }

  /** `debootstrap`: the words joined by single spaces (an empty word leaves two); nil for other distros. */
  function Debootstrap(cfg: Config, vm: Vm): Option<string>
  {
    match DebootstrapArgs(cfg, vm)
    case None => None
    case Some(ws) => Some(Phrase(ws))
  }

  /**
   * `,libc6-xen` is included exactly when the arch is i386, in every
   * variant but debian 5, which never includes it.
   */
  lemma LibcXenIff(distro: string, version: Option<string>, arch: Option<string>)
    requires Includes(distro, version, arch).Some?
    ensures distro == "debian" && version == Some("5") ==> "libc6-xen" !in Includes(distro, version, arch).value
    ensures !(distro == "debian" && version == Some("5")) ==>
              ("libc6-xen" in Includes(distro, version, arch).value <==> arch == Some("i386"))
  {
    var ps := Includes(distro, version, arch).value;
    if arch != Some("i386") {
      assert forall i :: 0 <= i < |ps| ==> ps[i] != "libc6-xen";
    }
  }

  /** The known releases debootstrap handles: debian 4 and 5, ubuntu 804, 810 and 904. */
  predicate Bootstrappable(vm: Vm)
  {
    || (vm.distro == Some("debian") && (vm.version == Some("4") || vm.version == Some("5")))
    || (vm.distro == Some("ubuntu") && (vm.version == Some("804") || vm.version == Some("810") || vm.version == Some("904")))
  }

  lemma IncludeWords()
    ensures NoSpace("openssh-server") && NoSpace("locales") && NoSpace("udev") && NoSpace("libc6-xen")
  {
  }

  lemma IncludeOptionWord(distro: string, version: Option<string>, arch: Option<string>)
    requires Includes(distro, version, arch).Some?
    ensures |IncludeOption(Includes(distro, version, arch))| > 0
    ensures NoSpace(IncludeOption(Includes(distro, version, arch)))
  {
    var ps := Includes(distro, version, arch).value;
    IncludeWords();
    assert forall i :: 0 <= i < |ps| ==> ps[i] in ["openssh-server", "locales", "udev", "libc6-xen"];
    JoinNoSpace(ps, ',');
    assert NoSpace("--include=");
    NoSpaceConcat("--include=", JoinWith(ps, ','));
  }

  lemma FixedDebootstrapWords()
    ensures NoSpace("debootstrap") && NoSpace(Components)
  {
    assert NoSpace("--components=");
    assert NoSpace("main,universe,multiverse") by {
      assert NoSpace("main,") && NoSpace("universe,") && NoSpace("multiverse");
      NoSpaceConcat("main,", "universe,");
      NoSpaceConcat("main,universe,", "multiverse");
    }
    NoSpaceConcat("--components=", "main,universe,multiverse");
  }

  /**
   * For a known release, splitting the command at white space gives back
   * the arch option, the include option and the code name; the command has
   * the components option as its fourth word exactly for ubuntu.
   */
  lemma DebootstrapWords(cfg: Config, vm: Vm)
    requires Bootstrappable(vm)
    requires vm.arch.Some? && AllWords([vm.arch.value, vm.mntPath, cfg.debianMirror, cfg.ubuntuMirror])
    ensures Debootstrap(cfg, vm).Some?
    ensures var ws := Words(Debootstrap(cfg, vm).value + "\n");
      && ws == DebootstrapArgs(cfg, vm).value
      && ws[0] == "debootstrap" && ws[1] == "--arch=" + vm.arch.value
      && ws[2] == "--include=" + JoinWith(Includes(vm.distro.value, vm.version, vm.arch).value, ',')
      && (vm.distro == Some("ubuntu") <==> |ws| == 7)
      && (vm.distro == Some("ubuntu") ==> ws[3] == Components && ws[4] == VersionAlias(vm.distro, vm.version).value)
      && (vm.distro == Some("debian") ==> ws[3] == VersionAlias(vm.distro, vm.version).value)
  {
    DebootstrapArgsWords(cfg, vm);
    WordsOfPhrase(DebootstrapArgs(cfg, vm).value);
  }

  lemma DebootstrapArgsWords(cfg: Config, vm: Vm)
    requires Bootstrappable(vm)
    requires vm.arch.Some? && AllWords([vm.arch.value, vm.mntPath, cfg.debianMirror, cfg.ubuntuMirror])
    ensures DebootstrapArgs(cfg, vm).Some? && |DebootstrapArgs(cfg, vm).value| > 0
    ensures AllWords(DebootstrapArgs(cfg, vm).value)
  {
    var ws := DebootstrapArgs(cfg, vm).value;
    var strs := [vm.arch.value, vm.mntPath, cfg.debianMirror, cfg.ubuntuMirror];
    assert |strs[0]| > 0 && NoSpace(strs[0]) && |strs[1]| > 0 && NoSpace(strs[1]);
    assert |strs[2]| > 0 && NoSpace(strs[2]) && |strs[3]| > 0 && NoSpace(strs[3]);
    FixedDebootstrapWords();
    IncludeOptionWord(vm.distro.value, vm.version, vm.arch);
    assert NoSpace("--arch=");
    NoSpaceConcat("--arch=", vm.arch.value);
    var alias := Show(VersionAlias(vm.distro, vm.version));
    assert alias in DebianAliases + UbuntuAliases;
    assert |alias| > 0 && NoSpace(alias);
  }

  // ---------------------------------------------------------------------
  // dd_img_file and dd_swap_img

  /** The words of a dd command writing `size` MB to `path`: sparse (one block at the end) when ha. */
  function DdWords(path: string, size: string, ha: bool): seq<string>
  {
    ["dd", "if=/dev/zero", "of=" + path, "oflag=direct", "bs=1M"]
      + (if ha then ["seek=" + size, "count=1"] else ["count=" + size])
  }

  /** `dd_img_file`: `@storage * 1024` MB; nil storage raises. */
  function DdImgFile(vm: Vm): Result<string>
  {
    if vm.storage.None? then Err(NilField(StorageField))
    else Ok(Phrase(DdWords(vm.imagePath, IntToString(vm.storage.value * 1024), vm.ha)))
  }

  /** `dd_swap_img`: `@swap` MB, interpolated as nothing when nil. */
  function DdSwapImg(vm: Vm): string
  {
    Phrase(DdWords(vm.swapPath, ShowInt(vm.swap), vm.ha))
  }

  lemma FixedDdWords()
    ensures AllWords(["dd", "if=/dev/zero", "oflag=direct", "bs=1M", "count=1"])
    ensures NoSpace("of=") && NoSpace("seek=") && NoSpace("count=")
  {
  }

  /** A dd command splits back into its words when the path is one word. */
  lemma DdCommandWords(path: string, n: int, ha: bool)
    requires |path| > 0 && NoSpace(path)
    ensures Words(Phrase(DdWords(path, IntToString(n), ha)) + "\n") == DdWords(path, IntToString(n), ha)
  {
    var size := IntToString(n);
    var ws := DdWords(path, size, ha);
    FixedDdWords();
    IntToStringWord(n);
    NoSpaceConcat("of=", path);
    NoSpaceConcat("seek=", size);
    NoSpaceConcat("count=", size);
    assert AllWords(ws);
    WordsOfPhrase(ws);
  }

  /** The size word of a dd command reads back as the number shown. */
  lemma DdSizeWord(path: string, n: int, ha: bool)
    ensures var ws := DdWords(path, IntToString(n), ha);
      && |ws| == (if ha then 7 else 6)
      && (ha ==> HasPrefix(ws[5], "seek=") && ToI(DropPrefix(ws[5], "seek=")) == n && ws[6] == "count=1")
      && (!ha ==> HasPrefix(ws[5], "count=") && ToI(DropPrefix(ws[5], "count=")) == n)
  {
    var size := IntToString(n);
    ToIOfIntToString(n);
    assert ("seek=" + size)[5..] == size;
    assert ("count=" + size)[6..] == size;
  }

  /**
   * A dd command for `n` MB read back word by word: the output file after
   * `of=`, then `seek=n count=1` when sparse and `count=n` otherwise.
   */
  lemma DdReadBack(path: string, n: int, ha: bool)
    requires |path| > 0 && NoSpace(path)
    ensures var ws := Words(Phrase(DdWords(path, IntToString(n), ha)) + "\n");
      && |ws| == (if ha then 7 else 6)
      && ws[2] == "of=" + path
      && (ha ==> HasPrefix(ws[5], "seek=") && ToI(DropPrefix(ws[5], "seek=")) == n && ws[6] == "count=1")
      && (!ha ==> HasPrefix(ws[5], "count=") && ToI(DropPrefix(ws[5], "count=")) == n)
  {
    var ws := DdWords(path, IntToString(n), ha);
    DdCommandWords(path, n, ha);
    assert Words(Phrase(ws) + "\n") == ws;
    DdSizeWord(path, n, ha);
  }

  /**
   * The image command writes `storage * 1024` MB to the image path: one
   * block after seeking that far when ha, that many blocks otherwise.
   */
  lemma DdImgFileSize(vm: Vm)
    requires vm.storage.Some? && |vm.imagePath| > 0 && NoSpace(vm.imagePath)
    ensures DdImgFile(vm).Ok?
    ensures var n := vm.storage.value * 1024; var ws := Words(DdImgFile(vm).value + "\n");
      && |ws| == (if vm.ha then 7 else 6)
      && ws[2] == "of=" + vm.imagePath
      && (vm.ha ==> HasPrefix(ws[5], "seek=") && ToI(DropPrefix(ws[5], "seek=")) == n && ws[6] == "count=1")
      && (!vm.ha ==> HasPrefix(ws[5], "count=") && ToI(DropPrefix(ws[5], "count=")) == n)
  {
    DdReadBack(vm.imagePath, vm.storage.value * 1024, vm.ha);
  }

  /** The swap command writes `swap` MB to the swap path, sparse exactly when ha. */
  lemma DdSwapImgSize(vm: Vm)
    requires vm.swap.Some? && |vm.swapPath| > 0 && NoSpace(vm.swapPath)
    ensures var ws := Words(DdSwapImg(vm) + "\n");
      && |ws| == (if vm.ha then 7 else 6)
      && ws[2] == "of=" + vm.swapPath
      && (vm.ha ==> HasPrefix(ws[5], "seek=") && ToI(DropPrefix(ws[5], "seek=")) == vm.swap.value && ws[6] == "count=1")
      && (!vm.ha ==> HasPrefix(ws[5], "count=") && ToI(DropPrefix(ws[5], "count=")) == vm.swap.value)
  {
    DdReadBack(vm.swapPath, vm.swap.value, vm.ha);
  }

  // ---------------------------------------------------------------------
  // kickstart_builder_url

  const BuilderPath := "/ks/kickstartbuilder.php"

  /** The GET parameters the URL passes, in the order the source writes them. */
  function BuilderPairs(cfg: Config, vm: Vm, n: NetInfo): Kickstart.Query
  {
    [("name", vm.name + "." + cfg.domain), ("distro", Show(vm.distro)), ("ver", Show(vm.version)),
     ("arch", Show(vm.arch)), ("ip", n.ip), ("nmask", n.nmask), ("gway", n.gway),
     ("swap", ShowInt(vm.swap)), ("rootpw", vm.rootpw)]
  }

  /** `kickstart_builder_url`; `@network[:ip]` on a VM without network raises. */
  function KickstartBuilderUrl(cfg: Config, vm: Vm): (r: Result<string>)
    ensures r.Ok? <==> vm.network.Some?
    ensures r.Err? ==> r.error == NilField(NetworkField)
  {
    if vm.network.None? then Err(NilField(NetworkField))
    else Ok("http://" + cfg.ksServer + BuilderPath + "?" + Kickstart.EncodeQuery(BuilderPairs(cfg, vm, vm.network.value)))
  }

  /**
   * No value the URL carries holds '&', which would split the query, or
   * '#', which would end it.  The swap size is a decimal numeral and holds
   * neither (`SwapValuePlain`).
   */
  predicate UrlSafe(cfg: Config, vm: Vm, n: NetInfo)
  {
    && UrlText(vm.name + "." + cfg.domain) && UrlText(Show(vm.distro)) && UrlText(Show(vm.version))
    && UrlText(Show(vm.arch)) && UrlText(n.ip) && UrlText(n.nmask) && UrlText(n.gway) && UrlText(vm.rootpw)
  }

  predicate UrlText(v: string)
  {
    Lacks(v, '&') && Lacks(v, '#')
  }

  /** No value the URL carries holds '+' or '%', which `urldecode` would translate. */
  predicate UrlPlain(cfg: Config, vm: Vm, n: NetInfo)
  {
    && Undecoded(vm.name + "." + cfg.domain) && Undecoded(Show(vm.distro)) && Undecoded(Show(vm.version))
    && Undecoded(Show(vm.arch)) && Undecoded(n.ip) && Undecoded(n.nmask) && Undecoded(n.gway) && Undecoded(vm.rootpw)
  }

  predicate Undecoded(v: string)
  {
    Lacks(v, '+') && Lacks(v, '%')
  }

  /** The swap size, digits and perhaps a '-', holds none of '&', '#', '+' and '%'. */
  lemma SwapValuePlain(swap: Option<int>)
    ensures UrlText(ShowInt(swap)) && Undecoded(ShowInt(swap))
  {
    if swap.Some? {
      IntToStringWord(swap.value);
    }
  }

  /** The parameter names, which hold none of '=', '&', '#', '+' and '%'. */
  lemma BuilderKeys(cfg: Config, vm: Vm, n: NetInfo)
    ensures var ps := BuilderPairs(cfg, vm, n);
      forall i :: 0 <= i < |ps| ==> Lacks(ps[i].0, '=') && UrlText(ps[i].0) && Undecoded(ps[i].0)
  {
    var ps := BuilderPairs(cfg, vm, n);
    forall i | 0 <= i < |ps| ensures Lacks(ps[i].0, '=') && UrlText(ps[i].0) && Undecoded(ps[i].0) {
      assert ps[i].0 in ["name", "distro", "ver", "arch", "ip", "nmask", "gway", "swap", "rootpw"];
    }
  }

  /**
   * The kickstart script reads back from the URL the VM's fully qualified
   * name, distro, version, arch, network settings, swap size and root
   * password, each as `urldecode` leaves it, when the kickstart server's
   * name holds no '?' or '#' and no value holds '&' or '#'.  When no value
   * holds '+' or '%' either, it reads them back exactly.
   */
  lemma BuilderUrlRequest(cfg: Config, vm: Vm)
    requires vm.network.Some? && Lacks(cfg.ksServer, '?') && Lacks(cfg.ksServer, '#') && UrlSafe(cfg, vm, vm.network.value)
    ensures KickstartBuilderUrl(cfg, vm).Ok?
    ensures var n := vm.network.value;
      Kickstart.FromQuery(Kickstart.ParseQuery(Kickstart.UrlQuery(KickstartBuilderUrl(cfg, vm).value)))
        == Kickstart.KsParams(Kickstart.UrlDecode(vm.name + "." + cfg.domain), Kickstart.UrlDecode(Show(vm.distro)),
                              Kickstart.UrlDecode(Show(vm.version)), Kickstart.UrlDecode(Show(vm.arch)),
                              Kickstart.UrlDecode(n.ip), Kickstart.UrlDecode(n.nmask), Kickstart.UrlDecode(n.gway),
                              Kickstart.UrlDecode(vm.rootpw), ShowInt(vm.swap))
    ensures var n := vm.network.value;
      UrlPlain(cfg, vm, n) ==>
      Kickstart.FromQuery(Kickstart.ParseQuery(Kickstart.UrlQuery(KickstartBuilderUrl(cfg, vm).value)))
        == Kickstart.KsParams(vm.name + "." + cfg.domain, Show(vm.distro), Show(vm.version), Show(vm.arch),
                              n.ip, n.nmask, n.gway, vm.rootpw, ShowInt(vm.swap))
  {
    var n := vm.network.value;
    BuilderQuery(cfg, vm);
    BuilderDecoded(cfg, vm, n);
    if UrlPlain(cfg, vm, n) {
      BuilderPlain(cfg, vm, n);
    }
  }

  /** The query the script receives is the URL's pairs, decoded. */
  lemma BuilderQuery(cfg: Config, vm: Vm)
    requires vm.network.Some? && Lacks(cfg.ksServer, '?') && Lacks(cfg.ksServer, '#') && UrlSafe(cfg, vm, vm.network.value)
    ensures KickstartBuilderUrl(cfg, vm).Ok?
    ensures Kickstart.ParseQuery(Kickstart.UrlQuery(KickstartBuilderUrl(cfg, vm).value))
      == Kickstart.DecodeAll(BuilderPairs(cfg, vm, vm.network.value))
  {
    var n := vm.network.value;
    var ps := BuilderPairs(cfg, vm, n);
    var base := "http://" + cfg.ksServer + BuilderPath;
    var query := Kickstart.EncodeQuery(ps);
    assert KickstartBuilderUrl(cfg, vm).value == base + "?" + query;
    BuilderBase(cfg);
    BuilderPairsSafe(cfg, vm, n);
    Kickstart.EncodeQueryLacks(ps, '#');
    Kickstart.UrlQueryOf(base, query);
    Kickstart.ParseEncodeQuery(ps);
  }

  /** `$_GET` finds each decoded value under its literal name. */
  lemma BuilderDecoded(cfg: Config, vm: Vm, n: NetInfo)
    ensures Kickstart.FromQuery(Kickstart.DecodeAll(BuilderPairs(cfg, vm, n)))
      == Kickstart.KsParams(Kickstart.UrlDecode(vm.name + "." + cfg.domain), Kickstart.UrlDecode(Show(vm.distro)),
                            Kickstart.UrlDecode(Show(vm.version)), Kickstart.UrlDecode(Show(vm.arch)),
                            Kickstart.UrlDecode(n.ip), Kickstart.UrlDecode(n.nmask), Kickstart.UrlDecode(n.gway),
                            Kickstart.UrlDecode(vm.rootpw), ShowInt(vm.swap))
  {
    var ps := BuilderPairs(cfg, vm, n);
    DecodedGets(ps);
    SwapValuePlain(vm.swap);
    Kickstart.UrlDecodePlain(ShowInt(vm.swap));
  }

  /** Nine pairs under the builder's names read back as their decoded values. */
  lemma DecodedGets(ps: Kickstart.Query)
    requires |ps| == 9
    requires ps[0].0 == "name" && ps[1].0 == "distro" && ps[2].0 == "ver" && ps[3].0 == "arch" && ps[4].0 == "ip"
    requires ps[5].0 == "nmask" && ps[6].0 == "gway" && ps[7].0 == "swap" && ps[8].0 == "rootpw"
    ensures Kickstart.FromQuery(Kickstart.DecodeAll(ps))
      == Kickstart.KsParams(Kickstart.UrlDecode(ps[0].1), Kickstart.UrlDecode(ps[1].1), Kickstart.UrlDecode(ps[2].1),
                            Kickstart.UrlDecode(ps[3].1), Kickstart.UrlDecode(ps[4].1), Kickstart.UrlDecode(ps[5].1),
                            Kickstart.UrlDecode(ps[6].1), Kickstart.UrlDecode(ps[8].1), Kickstart.UrlDecode(ps[7].1))
  {
    KeysPlain();
    DecodedAt(ps, 0);
    DecodedAt(ps, 1);
    DecodedAt(ps, 2);
    DecodedAt(ps, 3);
    DecodedAt(ps, 4);
    DecodedAt(ps, 5);
    DecodedAt(ps, 6);
    DecodedAt(ps, 7);
    DecodedAt(ps, 8);
    BuilderGets(Kickstart.DecodeAll(ps));
  }

  /** The nine names hold neither '+' nor '%'. */
  lemma KeysPlain()
    ensures Undecoded("name") && Undecoded("distro") && Undecoded("ver") && Undecoded("arch") && Undecoded("ip")
    ensures Undecoded("nmask") && Undecoded("gway") && Undecoded("swap") && Undecoded("rootpw")
  {
  }

  /** A pair whose name holds neither '+' nor '%' decodes to its name and its decoded value. */
  lemma DecodedAt(ps: Kickstart.Query, i: nat)
    requires i < |ps| && Undecoded(ps[i].0)
    ensures Kickstart.DecodeAll(ps)[i] == (ps[i].0, Kickstart.UrlDecode(ps[i].1))
  {
    Kickstart.UrlDecodePlain(ps[i].0);
  }

  lemma BuilderPlain(cfg: Config, vm: Vm, n: NetInfo)
    requires UrlPlain(cfg, vm, n)
    ensures Kickstart.KsParams(Kickstart.UrlDecode(vm.name + "." + cfg.domain), Kickstart.UrlDecode(Show(vm.distro)),
                               Kickstart.UrlDecode(Show(vm.version)), Kickstart.UrlDecode(Show(vm.arch)),
                               Kickstart.UrlDecode(n.ip), Kickstart.UrlDecode(n.nmask), Kickstart.UrlDecode(n.gway),
                               Kickstart.UrlDecode(vm.rootpw), ShowInt(vm.swap))
      == Kickstart.KsParams(vm.name + "." + cfg.domain, Show(vm.distro), Show(vm.version), Show(vm.arch),
                            n.ip, n.nmask, n.gway, vm.rootpw, ShowInt(vm.swap))
  {
    Kickstart.UrlDecodePlain(vm.name + "." + cfg.domain);
    Kickstart.UrlDecodePlain(Show(vm.distro));
    Kickstart.UrlDecodePlain(Show(vm.version));
    Kickstart.UrlDecodePlain(Show(vm.arch));
    Kickstart.UrlDecodePlain(n.ip);
    Kickstart.UrlDecodePlain(n.nmask);
    Kickstart.UrlDecodePlain(n.gway);
    Kickstart.UrlDecodePlain(vm.rootpw);
  }

  /** No name of the URL holds '=', and no name or value '&' or '#'. */
  lemma BuilderPairsSafe(cfg: Config, vm: Vm, n: NetInfo)
    requires UrlSafe(cfg, vm, n)
    ensures var ps := BuilderPairs(cfg, vm, n);
      forall i :: 0 <= i < |ps| ==>
        && Lacks(ps[i].0, '=') && Lacks(ps[i].0, '&') && Lacks(ps[i].1, '&')
        && Lacks(ps[i].0, '#') && Lacks(ps[i].1, '#') && Undecoded(ps[i].0)
  {
    var ps := BuilderPairs(cfg, vm, n);
    BuilderKeys(cfg, vm, n);
    SwapValuePlain(vm.swap);
    forall i | 0 <= i < |ps| ensures UrlText(ps[i].1) {
      assert ps[i].1 in [vm.name + "." + cfg.domain, Show(vm.distro), Show(vm.version), Show(vm.arch),
                         n.ip, n.nmask, n.gway, ShowInt(vm.swap), vm.rootpw];
    }
  }

  lemma BuilderBase(cfg: Config)
    requires Lacks(cfg.ksServer, '?') && Lacks(cfg.ksServer, '#')
    ensures Lacks("http://" + cfg.ksServer + BuilderPath, '?') && Lacks("http://" + cfg.ksServer + BuilderPath, '#')
  {
    assert Lacks("http://", '?') && Lacks(BuilderPath, '?');
    assert Lacks("http://", '#') && Lacks(BuilderPath, '#');
    LacksConcat("http://", cfg.ksServer, '?');
    LacksConcat("http://" + cfg.ksServer, BuilderPath, '?');
    LacksConcat("http://", cfg.ksServer, '#');
    LacksConcat("http://" + cfg.ksServer, BuilderPath, '#');
  }

  /** Each parameter name occurs once, so `$_GET` finds its value. */
  lemma BuilderGets(ps: Kickstart.Query)
    requires |ps| == 9
    requires ps[0].0 == "name" && ps[1].0 == "distro" && ps[2].0 == "ver" && ps[3].0 == "arch" && ps[4].0 == "ip"
    requires ps[5].0 == "nmask" && ps[6].0 == "gway" && ps[7].0 == "swap" && ps[8].0 == "rootpw"
    ensures Kickstart.FromQuery(ps) == Kickstart.KsParams(ps[0].1, ps[1].1, ps[2].1, ps[3].1, ps[4].1, ps[5].1, ps[6].1, ps[8].1, ps[7].1)
  {
    Kickstart.GetLast(ps, "name", 0);
    Kickstart.GetLast(ps, "distro", 1);
    Kickstart.GetLast(ps, "ver", 2);
    Kickstart.GetLast(ps, "arch", 3);
    Kickstart.GetLast(ps, "ip", 4);
    Kickstart.GetLast(ps, "nmask", 5);
    Kickstart.GetLast(ps, "gway", 6);
    Kickstart.GetLast(ps, "swap", 7);
    Kickstart.GetLast(ps, "rootpw", 8);
  }

  /**
   * Following the URL, the kickstart file's network line carries the VM's
   * address, netmask and gateway and its fully qualified name as hostname,
   * when the URL passes them unchanged.
   */
  lemma BuilderNetworkLine(cfg: Config, vm: Vm, crypt: Kickstart.Crypt)
    requires vm.network.Some? && Lacks(cfg.ksServer, '?') && Lacks(cfg.ksServer, '#')
    requires UrlSafe(cfg, vm, vm.network.value) && UrlPlain(cfg, vm, vm.network.value)
    requires AllWords([vm.network.value.ip, vm.network.value.nmask, vm.network.value.gway, vm.name + "." + cfg.domain])
    ensures KickstartBuilderUrl(cfg, vm).Ok?
    ensures var q := Kickstart.ParseQuery(Kickstart.UrlQuery(KickstartBuilderUrl(cfg, vm).value));
      var p := Kickstart.FromQuery(q);
      var ws := Words(Kickstart.KsLines(p, crypt)[Kickstart.NetworkIndex(p)] + "\n");
      && |ws| == 15
      && ws[6] == vm.network.value.ip && ws[8] == vm.network.value.nmask && ws[10] == vm.network.value.gway
      && ws[14] == vm.name + "." + cfg.domain
  {
    BuilderUrlRequest(cfg, vm);
    var q := Kickstart.ParseQuery(Kickstart.UrlQuery(KickstartBuilderUrl(cfg, vm).value));
    Kickstart.NetworkAndUrl(q, crypt);
  }
}

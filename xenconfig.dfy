/**
 * The Xen domain configuration file: `create_config` and
 * `create_config_for_ks` write it (vmscripts/lib/virtual_machine.rb:267-315),
 * `load_from_conf` reads a VirtualMachine back from it (lines 27-35, 73-142).
 * The file is text; reading splits it into lines as IO#gets does and
 * classifies each line by the first of the source's regular expressions it
 * matches.
 */
module XenConfig {
  import opened Strings
  import opened Host
  import opened Network
  import opened Machine
  import opened Commands
  import opened Packages

  // ---------------------------------------------------------------------
  // Reading: the regular expressions of lines 29-36

  /** `/^\s*key\s*=/`: optional white space, the key, optional white space, '='. */
  predicate KeyLine(line: string, key: string)
  {
    var t := SkipSpace(line);
    HasPrefix(t, key) && HasPrefix(SkipSpace(t[|key|..]), "=")
  }

  /** `/^# VM key =/`: the details block's comment lines. */
  function Tag(key: string): string
  {
    "# VM " + key + " ="
  }

  /** The branch of the `case` in load_from_conf a line takes. */
  datatype LineKind = NameKey | MemKey | DiskKey | VifKey | DistroComment | HaComment | PackageComment | Unmatched

  /** The first `when` whose regular expression matches, in the source's order. */
  function Classify(line: string): (k: LineKind)
    ensures k.DistroComment? ==> HasPrefix(line, Tag("distro"))
    ensures k.HaComment? ==> HasPrefix(line, Tag("ha"))
    ensures k.PackageComment? ==> HasPrefix(line, Tag("package"))
  {
    if KeyLine(line, "name") then NameKey
    else if KeyLine(line, "maxmem") then MemKey
    else if KeyLine(line, "disk") then DiskKey
    else if KeyLine(line, "vif") then VifKey
    else if HasPrefix(line, Tag("distro")) then DistroComment
    else if HasPrefix(line, Tag("ha")) then HaComment
    else if HasPrefix(line, Tag("package")) then PackageComment
    else Unmatched
  }

  /** `gsub(/["']/, '')` */
  const Quotes: set<char> := {'"', '\''}
  /** `gsub(/[\[\]"']/, '')` */
  const Brackets: set<char> := {'[', ']', '"', '\''}

  /** `clean_tok =~ /^.*-swap.img$/`, whose unescaped '.' matches any character. */
  predicate SwapImage(t: string)
  {
    |t| >= 9 && t[|t| - 9..|t| - 4] == "-swap" && t[|t| - 3..] == "img"
  }

  /** A disk token with brackets and quotes, everything from the first comma and every `tap:aio:` removed. */
  function DiskPath(tok: string): string
  {
    Strip(RemoveAll(CutAt(RemoveChars(tok, Brackets), ','), "tap:aio:"))
  }

  /** A cleaned disk path is the swap file when it looks like one and the image otherwise. */
  function AssignPath(p: Params, t: string): Params
  {
    if SwapImage(t) then p.(swapPath := Some(t)) else p.(imagePath := Some(t))
  }

  /** One token of a `disk =` line. */
  function DiskToken(p: Params, tok: string): Params
  {
    var t := DiskPath(tok);
    if t == "disk" || t == "=" then p else AssignPath(p, t)
  }

  function DiskTokens(p: Params, toks: seq<string>): Params
    decreases |toks|
  {
    if |toks| == 0 then p else DiskTokens(DiskToken(p, toks[0]), toks[1..])
  }

  /** One comma-separated field of a `vif =` token. */
  function VifField(p: Params, f: string): Params
  {
    if HasPrefix(f, "ip=") then p.(ip := Some(DropPrefix(f, "ip=")))
    else if HasPrefix(f, "mac=") then p.(mac := Some(DropPrefix(f, "mac=")))
    else p
  }

  function VifFields(p: Params, fs: seq<string>): Params
    decreases |fs|
  {
    if |fs| == 0 then p else VifFields(VifField(p, fs[0]), fs[1..])
  }

  /** One token of a `vif =` line. */
  function VifToken(p: Params, tok: string): Params
  {
    var t := Strip(RemoveChars(tok, Brackets));
    if t == "vif" || t == "=" then p else VifFields(p, RubySplit(t, ','))
  }

  function VifTokens(p: Params, toks: seq<string>): Params
    decreases |toks|
  {
    if |toks| == 0 then p else VifTokens(VifToken(p, toks[0]), toks[1..])
  }

  /** `a[i]`, nil past the end. */
  function At(a: seq<string>, i: nat): Option<string>
  {
    if i < |a| then Some(a[i]) else None
  }

  /** What one line read by `gets` does to the parameters; `nil.gsub` and `nil.strip` raise. */
  function ApplyLine(p: Params, line: string): Result<Params>
  {
    ApplyKind(p, line, Classify(line), Words(line))
  }

  /** The branch `kind` of the `case`, on the line's words `ws`. */
  function ApplyKind(p: Params, line: string, kind: LineKind, ws: seq<string>): Result<Params>
  {
    match kind
    case NameKey => ApplyName(p, line, ws)
    case MemKey => ApplyMem(p, line, ws)
    case DiskKey => Ok(DiskTokens(p, ws))
    case VifKey => Ok(VifTokens(p, ws))
    case DistroComment => ApplyDistro(p, line, ws)
    case HaComment => ApplyHa(p, line, ws)
    case PackageComment => ApplyPackage(p, line, ws)
    case Unmatched => Ok(p)
  }

  /** `params[:name] = line.split[2].gsub(/["']/, '')` */
  function ApplyName(p: Params, line: string, ws: seq<string>): Result<Params>
  {
    if |ws| < 3 then Err(MalformedLine(line)) else Ok(p.(name := Some(RemoveChars(ws[2], Quotes))))
  }

  /** `params[:mem] = line.split[2].gsub(/["']/, '')` */
  function ApplyMem(p: Params, line: string, ws: seq<string>): Result<Params>
  {
    if |ws| < 3 then Err(MalformedLine(line)) else Ok(p.(mem := Some(RemoveChars(ws[2], Quotes))))
  }

  /** The last word, stripped and split at '-', gives distro, version and arch. */
  function ApplyDistro(p: Params, line: string, ws: seq<string>): Result<Params>
  {
    if |ws| == 0 then Err(MalformedLine(line))
    else
      var parts := RubySplit(Strip(ws[|ws| - 1]), '-');
      Ok(p.(distro := At(parts, 0), version := At(parts, 1), arch := At(parts, 2)))
  }

  /** The last word, stripped, sets ha when it is `true` or `false`. */
  function ApplyHa(p: Params, line: string, ws: seq<string>): Result<Params>
  {
    if |ws| == 0 then Err(MalformedLine(line))
    else
      var s := Strip(ws[|ws| - 1]);
      if s == "true" then Ok(p.(ha := Some(true)))
      else if s == "false" then Ok(p.(ha := Some(false)))
      else Ok(p)
  }

  /** The last word, stripped, is the package. */
  function ApplyPackage(p: Params, line: string, ws: seq<string>): Result<Params>
  {
    if |ws| == 0 then Err(MalformedLine(line)) else Ok(p.(package := Some(Strip(ws[|ws| - 1]))))
  }

  /** Each kind of line takes its own branch. */
  lemma KindBranch(p: Params, line: string, kind: LineKind, ws: seq<string>)
    ensures kind == NameKey ==> ApplyKind(p, line, kind, ws) == ApplyName(p, line, ws)
    ensures kind == MemKey ==> ApplyKind(p, line, kind, ws) == ApplyMem(p, line, ws)
    ensures kind == DiskKey ==> ApplyKind(p, line, kind, ws) == Ok(DiskTokens(p, ws))
    ensures kind == VifKey ==> ApplyKind(p, line, kind, ws) == Ok(VifTokens(p, ws))
    ensures kind == DistroComment ==> ApplyKind(p, line, kind, ws) == ApplyDistro(p, line, ws)
    ensures kind == HaComment ==> ApplyKind(p, line, kind, ws) == ApplyHa(p, line, ws)
    ensures kind == PackageComment ==> ApplyKind(p, line, kind, ws) == ApplyPackage(p, line, ws)
    ensures kind == Unmatched ==> ApplyKind(p, line, kind, ws) == Ok(p)
  {
  }

  /** The lines in order, each from the parameters the previous ones left. */
  function DecodeLines(p: Params, lines: seq<string>): Result<Params>
    decreases |lines|
  {
    if |lines| == 0 then Ok(p)
    else
      match ApplyLine(p, lines[0])
      case Err(e) => Err(e)
      case Ok(q) => DecodeLines(q, lines[1..])
  }

  /** The `params` hash load_from_conf reads from a file's text. */
  function DecodeConf(text: string): Result<Params>
  {
    DecodeLines(NoParams, GetsLines(text))
  }

  /** `load_from_conf(conf_file, extra_params)`: the file's parameters, then extra_params over them. */
  function LoadedVm(cfg: Config, text: string, extra: Params, e: Entropy): Result<Vm>
  {
    var p :- DecodeConf(text);
    Instance(cfg, Merge(p, extra), e)
  }

  // ---------------------------------------------------------------------
  // Reading, as the source's loops do it

  /** `line.split.each do |disk_tok| ... end` */
  method ParseDiskLine(p: Params, toks: seq<string>) returns (q: Params)
    ensures q == DiskTokens(p, toks)
  {
    q := p;
    var i := 0;
    while i < |toks|
      invariant 0 <= i <= |toks|
      invariant DiskTokens(q, toks[i..]) == DiskTokens(p, toks)
    {
      assert toks[i..][1..] == toks[i + 1..];
      var t := DiskPath(toks[i]);
      if t != "disk" && t != "=" {
        if SwapImage(t) {
          q := q.(swapPath := Some(t));
        } else {
          q := q.(imagePath := Some(t));
        }
      }
      i := i + 1;
    }
  }

  /** `clean_tok.split(',').each do |tok| ... end` */
  method ParseVifFields(p: Params, fs: seq<string>) returns (q: Params)
    ensures q == VifFields(p, fs)
  {
    q := p;
    var i := 0;
    while i < |fs|
      invariant 0 <= i <= |fs|
      invariant VifFields(q, fs[i..]) == VifFields(p, fs)
    {
      assert fs[i..][1..] == fs[i + 1..];
      if HasPrefix(fs[i], "ip=") {
        q := q.(ip := Some(fs[i][3..]));
      } else if HasPrefix(fs[i], "mac=") {
        q := q.(mac := Some(fs[i][4..]));
      }
      i := i + 1;
    }
  }

  /** `line.split.each do |vif_tok| ... end` */
  method ParseVifLine(p: Params, toks: seq<string>) returns (q: Params)
    ensures q == VifTokens(p, toks)
  {
    q := p;
    var i := 0;
    while i < |toks|
      invariant 0 <= i <= |toks|
      invariant VifTokens(q, toks[i..]) == VifTokens(p, toks)
    {
      assert toks[i..][1..] == toks[i + 1..];
      var t := Strip(RemoveChars(toks[i], Brackets));
      if t != "vif" && t != "=" {
        q := ParseVifFields(q, RubySplit(t, ','));
      }
      i := i + 1;
    }
  }

  /** One turn of the `case` in load_from_conf: the branch the line takes, on its words. */
  method ParseLine(p: Params, line: string) returns (r: Result<Params>)
    ensures r == ApplyLine(p, line)
  {
    var ws := Words(line);
    var kind := Classify(line);
    KindBranch(p, line, kind, ws);
    if kind == NameKey || kind == MemKey {
      if |ws| < 3 {
        return Err(MalformedLine(line));
      }
      var value := RemoveChars(ws[2], Quotes);
      if kind == NameKey {
        r := Ok(p.(name := Some(value)));
      } else {
        r := Ok(p.(mem := Some(value)));
      }
    } else if kind == DiskKey {
      var q := ParseDiskLine(p, ws);
      r := Ok(q);
    } else if kind == VifKey {
      var q := ParseVifLine(p, ws);
      r := Ok(q);
    } else if kind == Unmatched {
      r := Ok(p);
    } else {
      if |ws| == 0 {
        return Err(MalformedLine(line));
      }
      var last := Strip(ws[|ws| - 1]);
      if kind == DistroComment {
        var parts := RubySplit(last, '-');
        r := Ok(p.(distro := At(parts, 0), version := At(parts, 1), arch := At(parts, 2)));
      } else if kind == HaComment {
        if last == "true" {
          r := Ok(p.(ha := Some(true)));
        } else if last == "false" {
          r := Ok(p.(ha := Some(false)));
        } else {
          r := Ok(p);
        }
      } else {
        r := Ok(p.(package := Some(last)));
      }
    }
  }

  /** The `while line = conf.gets` loop of load_from_conf. */
  method ParseConf(text: string) returns (r: Result<Params>)
    ensures r == DecodeConf(text)
  {
    var lines := GetsLines(text);
    var p := NoParams;
    var i := 0;
    while i < |lines|
      invariant 0 <= i <= |lines|
      invariant DecodeLines(p, lines[i..]) == DecodeConf(text)
    {
      assert lines[i..][1..] == lines[i + 1..];
      var q := ParseLine(p, lines[i]);
      if q.Err? {
        return Err(q.error);
      }
      p := q.value;
      i := i + 1;
    }
    r := Ok(p);
  }

  /** `load_from_conf`: parse the file, merge extra_params when given, construct. */
  method LoadFromConf(cfg: Config, text: string, extra: Params, e: Entropy) returns (r: Result<Vm>)
    ensures r == LoadedVm(cfg, text, extra, e)
  {
    var parsed := ParseConf(text);
    if parsed.Err? {
      return Err(parsed.error);
    }
    r := Initialize(cfg, Merge(parsed.value, extra), e);
  }

  // ---------------------------------------------------------------------
  // Writing: create_config and create_config_for_ks

  /** A `key = value` line. */
  function Setting(key: string, value: string): string
  {
    key + " = " + value
  }

  /** A value in single quotes. */
  function Quoted(s: string): string
  {
    "'" + s + "'"
  }

  /** A `# VM key = value` line of the details block. */
  function Comment(key: string, value: string): string
  {
    Tag(key) + " " + value
  }

  /** One `tap:aio:` entry of the disk list, the first one followed by its comma. */
  function DiskEntry(path: string, device: string): string
  {
    "'tap:aio:" + path + "," + device + ",w'"
  }

  /** `disk = ['tap:aio:IMAGE,xvda,w', 'tap:aio:SWAP,xvdb,w']` */
  function DiskLine(image: string, swap: string): string
  {
    Setting("disk", "[" + DiskEntry(image, "xvda") + ", " + DiskEntry(swap, "xvdb") + "]")
  }

  /** A one-element vif list: the fields joined by commas, quoted and bracketed. */
  function VifEntry(fields: seq<string>): string
  {
    "['" + JoinWith(fields, ',') + "']"
  }

  /** The `vif` line: a bridged network names the bridge, a routed one the address; others get none. */
  function VifLines(n: NetInfo): seq<string>
  {
    if n.linkType == "bridged" then [Setting("vif", VifEntry(["mac=" + n.mac, "bridge=xenbr0"]))]
    else if n.linkType == "routed" then [Setting("vif", VifEntry(["mac=" + n.mac, "ip=" + n.ip]))]
    else []
  }

  /** The name line and `maxmem = #{@mem}\nmemory = #{@mem}`. */
  function NameMemLines(vm: Vm): seq<string>
  {
    [Setting("name", Quoted(vm.name)), Setting("maxmem", ShowInt(vm.mem)), Setting("memory", ShowInt(vm.mem))]
  }

  /** The three `on_*` lines: power-off destroys the domain; reboot and crash take the given action (restart or destroy). */
  function ActionLines(action: string): seq<string>
  {
    [Setting("on_poweroff", Quoted("destroy")), Setting("on_reboot", Quoted(action)), Setting("on_crash", Quoted(action))]
  }

  const DetailsHeader := "## VM Script Details" + " (DO NOT REMOVE) ##"

  /** The details block load_from_conf reads distro, HA flag and package back from. */
  function DetailLines(vm: Vm, distro: string): seq<string>
  {
    [DetailsHeader, Comment("distro", distro), Comment("ha", if vm.ha then "true" else "false"),
     Comment("package", Show(vm.package))]
  }

  /** The lines of `create_config`; `@network[:type]` and `distro_string` raise on nil. */
  function ConfigLines(vm: Vm): (r: Result<seq<string>>)
    ensures r.Ok? <==> vm.network.Some? && vm.distro.Some? && vm.version.Some? && vm.arch.Some?
    ensures vm.network.None? ==> r == Err(NilField(NetworkField))
  {
    if vm.network.None? then Err(NilField(NetworkField))
    else
      var distro :- DistroString(vm);
      Ok(NameMemLines(vm) + [Setting("bootloader", Quoted("/usr/bin/pygrub")), DiskLine(vm.imagePath, vm.swapPath)]
         + VifLines(vm.network.value) + ActionLines("restart") + DetailLines(vm, distro))
  }

  /** The file `create_config` writes. */
  function CreateConfig(vm: Vm): Result<string>
  {
    var lines :- ConfigLines(vm);
    Ok(Unlines(lines))
  }

  /** `NAMESERVERS[0]`, nil when the list is empty. */
  function FirstNameserver(cfg: Config): string
  {
    if |cfg.nameservers| > 0 then cfg.nameservers[0] else ""
  }

  /** `KS_KERNEL_DIR/distro/version/arch/file` */
  function BootFile(cfg: Config, vm: Vm, file: string): string
  {
    cfg.ksKernelDir + "/" + Show(vm.distro) + "/" + Show(vm.version) + "/" + Show(vm.arch) + "/" + file
  }

  /** The installer's kernel arguments: text mode, the static network and the kickstart URL. */
  function InstallerArgs(cfg: Config, n: NetInfo, url: string): string
  {
    Phrase(["text", "ip=" + n.ip, "netmask=" + n.nmask, "gateway=" + n.gway, "dns=" + FirstNameserver(cfg), "ks=" + url])
  }

  /** The lines of `create_config_for_ks`; `@network[:ip]` raises on nil. */
  function KsConfigLines(cfg: Config, vm: Vm): (r: Result<seq<string>>)
    ensures r.Ok? <==> vm.network.Some?
    ensures r.Err? ==> r.error == NilField(NetworkField)
  {
    if vm.network.None? then Err(NilField(NetworkField))
    else
      var url := KickstartBuilderUrl(cfg, vm).value;
      var n := vm.network.value;
      Ok(NameMemLines(vm)
         + [Setting("kernel", Quoted(BootFile(cfg, vm, "vmlinuz"))), Setting("ramdisk", Quoted(BootFile(cfg, vm, "initrd.img"))),
            Setting("extra", Quoted(InstallerArgs(cfg, n, url))), DiskLine(vm.imagePath, vm.swapPath)]
         + VifLines(n) + ActionLines("destroy"))
  }

  /** The file `create_config_for_ks` writes. */
  function CreateConfigForKs(cfg: Config, vm: Vm): Result<string>
  {
    var lines :- KsConfigLines(cfg, vm);
    Ok(Unlines(lines))
  }

  // ---------------------------------------------------------------------
  // Which branch of the `case` each written line takes

  lemma NotKeyLine(line: string, key: string, j: nat)
    requires |line| > 0 && !IsSpace(line[0])
    requires j < |key| && (j >= |line| || line[j] != key[j])
    ensures !KeyLine(line, key)
  {
  }

  lemma NotTag(line: string, tag: string, j: nat)
    requires j < |tag| && (j >= |line| || line[j] != tag[j])
    ensures !HasPrefix(line, tag)
  {
  }

  lemma IsKeyLine(key: string, value: string)
    requires |key| > 0 && !IsSpace(key[0])
    ensures KeyLine(Setting(key, value) + "\n", key)
  {
    var t := " = " + value + "\n";
    assert Setting(key, value) + "\n" == key + t;
    assert t[0] == ' ' && t[1] == '=';
    KeyLineOf(key, t);
  }

  lemma KeyLineOf(key: string, t: string)
    requires |key| > 0 && !IsSpace(key[0])
    requires |t| >= 2 && t[0] == ' ' && t[1] == '='
    ensures KeyLine(key + t, key)
  {
    var l := key + t;
    assert l[0] == key[0] && SkipSpace(l) == l;
    assert l[..|key|] == key && l[|key|..] == t;
    assert SkipSpace(t) == SkipSpace(t[1..]) == t[1..];
  }

  /** The keys the two writers use. */
  const WrittenKeys: set<string> :=
    {"name", "maxmem", "memory", "bootloader", "disk", "vif", "on_poweroff", "on_reboot", "on_crash", "kernel", "ramdisk", "extra"}

  /** The branch a `key = ...` line takes: `memory` is not `maxmem`, and the rest match nothing. */
  function KeyKind(key: string): LineKind
  {
    if key == "name" then NameKey
    else if key == "maxmem" then MemKey
    else if key == "disk" then DiskKey
    else if key == "vif" then VifKey
    else Unmatched
  }

  lemma SettingKind(key: string, value: string)
    requires key in WrittenKeys
    ensures Classify(Setting(key, value) + "\n") == KeyKind(key)
  {
    var l := Setting(key, value) + "\n";
    assert |key| >= 3 && l[0] == key[0] && l[1] == key[1];
    NotTag(l, Tag("distro"), 0);
    NotTag(l, Tag("ha"), 0);
    NotTag(l, Tag("package"), 0);
    if key == "name" {
      IsKeyLine(key, value);
    } else {
      NotKeyLine(l, "name", 0);
      if key == "maxmem" {
        IsKeyLine(key, value);
      } else {
        NotKeyLine(l, "maxmem", if key == "memory" then 1 else 0);
        if key == "disk" {
          IsKeyLine(key, value);
        } else {
          NotKeyLine(l, "disk", 0);
          if key == "vif" {
            IsKeyLine(key, value);
          } else {
            NotKeyLine(l, "vif", 0);
          }
        }
      }
    }
  }

  lemma CommentKind(key: string, value: string)
    requires key in {"distro", "ha", "package"}
    ensures Classify(Comment(key, value) + "\n")
         == if key == "distro" then DistroComment else if key == "ha" then HaComment else PackageComment
  {
    var l := Comment(key, value) + "\n";
    CommentShape(key, value);
    TagHead("distro");
    TagHead("ha");
    NotKeyLine(l, "name", 0);
    NotKeyLine(l, "maxmem", 0);
    NotKeyLine(l, "disk", 0);
    NotKeyLine(l, "vif", 0);
    if key != "distro" {
      NotTag(l, Tag("distro"), 5);
      if key != "ha" {
        NotTag(l, Tag("ha"), 5);
      }
    }
  }

  lemma HeaderKind()
    ensures Classify(DetailsHeader + "\n") == Unmatched
  {
    var l := DetailsHeader + "\n";
    assert l[0] == '#' && l[1] == '#';
    NotKeyLine(l, "name", 0);
    NotKeyLine(l, "maxmem", 0);
    NotKeyLine(l, "disk", 0);
    NotKeyLine(l, "vif", 0);
    TagHead("distro");
    TagHead("ha");
    TagHead("package");
    NotTag(l, Tag("distro"), 1);
    NotTag(l, Tag("ha"), 1);
    NotTag(l, Tag("package"), 1);
  }

  lemma ReadHeader(p: Params)
    ensures ApplyLine(p, DetailsHeader + "\n") == Ok(p) && Lacks(DetailsHeader, '\n')
  {
    HeaderKind();
    HeaderOneLine();
  }

  lemma HeaderOneLine()
    ensures Lacks(DetailsHeader, '\n')
  {
    LacksConcat("## VM Script Details", " (DO NOT REMOVE) ##", '\n');
  }

  lemma TagHead(key: string)
    requires |key| > 0
    ensures |Tag(key)| == |key| + 7 && Tag(key)[0] == '#' && Tag(key)[1] == ' ' && Tag(key)[5] == key[0]
  {
  }

  /** A comment line starts with its tag, then '#' at 0 and the key from 5. */
  lemma CommentShape(key: string, value: string)
    requires |key| > 0
    ensures var l := Comment(key, value) + "\n";
      HasPrefix(l, Tag(key)) && l[0] == '#' && l[5] == key[0]
  {
    var l := Comment(key, value) + "\n";
    assert l == Tag(key) + (" " + value + "\n");
    assert l[..|Tag(key)|] == Tag(key);
    TagHead(key);
  }

  // ---------------------------------------------------------------------
  // How each written line splits into words

  lemma NoSpaceOneLine(s: string)
    requires NoSpace(s)
    ensures Lacks(s, '\n')
  {
  }

  lemma AllWordsOneLine(ws: seq<string>)
    requires AllWords(ws)
    ensures NoneHas(ws, '\n')
  {
    forall i | 0 <= i < |ws| ensures Lacks(ws[i], '\n') {
      NoSpaceOneLine(ws[i]);
    }
  }

  lemma SettingWords(key: string, value: string)
    requires |key| > 0 && NoSpace(key) && |value| > 0 && NoSpace(value)
    ensures Words(Setting(key, value) + "\n") == [key, "=", value]
    ensures Lacks(Setting(key, value), '\n')
  {
    assert [key, "=", value][1..] == ["=", value];
    assert Phrase(["=", value]) == "= " + value;
    assert Setting(key, value) == Phrase([key, "=", value]);
    WordsOfPhrase([key, "=", value]);
    AllWordsOneLine([key, "=", value]);
    PhraseLacks([key, "=", value], '\n');
  }

  /** The keys the writers put before a value are single words. */
  lemma KeyWords()
    ensures |"name"| > 0 && NoSpace("name") && |"maxmem"| > 0 && NoSpace("maxmem")
    ensures |"disk"| > 0 && NoSpace("disk") && |"vif"| > 0 && NoSpace("vif")
    ensures |"distro"| > 0 && NoSpace("distro") && |"ha"| > 0 && NoSpace("ha")
    ensures |"package"| > 0 && NoSpace("package")
  {
  }

  lemma CommentWords(key: string, value: string)
    requires |key| > 0 && NoSpace(key) && |value| > 0 && NoSpace(value)
    ensures Words(Comment(key, value) + "\n") == ["#", "VM", key, "=", value]
    ensures Lacks(Comment(key, value), '\n')
  {
    var ws := ["#", "VM", key, "=", value];
    assert ws[1..] == ["VM", key, "=", value] && ws[1..][1..] == [key, "=", value];
    assert ws[1..][1..][1..] == ["=", value];
    assert Phrase(["=", value]) == "= " + value;
    assert Phrase([key, "=", value]) == key + " = " + value;
    assert Comment(key, value) == Phrase(ws);
    WordsOfPhrase(["#", "VM", key, "=", value]);
    AllWordsOneLine(["#", "VM", key, "=", value]);
    PhraseLacks(["#", "VM", key, "=", value], '\n');
  }

  lemma SettingOneLine(key: string, value: string)
    requires Lacks(key, '\n') && Lacks(value, '\n')
    ensures Lacks(Setting(key, value), '\n') && Lacks(Setting(key, Quoted(value)), '\n')
  {
    LacksConcat(key, " = ", '\n');
    LacksConcat(key + " = ", value, '\n');
    LacksConcat("'", value, '\n');
    LacksConcat("'" + value, "'", '\n');
    LacksConcat(key + " = ", Quoted(value), '\n');
  }

  // ---------------------------------------------------------------------
  // What each written line reads back as

  /** The `case` branch taken on known words, one lemma per branch. */
  lemma ValueKind(p: Params, l: string, ws: seq<string>, value: string)
    requires |ws| >= 3 && RemoveChars(ws[2], Quotes) == value
    ensures ApplyKind(p, l, NameKey, ws) == Ok(p.(name := Some(value)))
    ensures ApplyKind(p, l, MemKey, ws) == Ok(p.(mem := Some(value)))
  {
    KindBranch(p, l, NameKey, ws);
    KindBranch(p, l, MemKey, ws);
  }

  lemma DistroKind(p: Params, l: string, ws: seq<string>, d: string, v: string, a: string)
    requires |ws| > 0 && RubySplit(Strip(ws[|ws| - 1]), '-') == [d, v, a]
    ensures ApplyKind(p, l, DistroComment, ws) == Ok(p.(distro := Some(d), version := Some(v), arch := Some(a)))
  {
    KindBranch(p, l, DistroComment, ws);
  }

  lemma HaValues()
    ensures NoSpace("true") && NoSpace("false")
    ensures Strip("true") == "true" && Strip("false") == "false" && "true" != "false"
  {
    TrueWord();
    FalseWord();
  }

  lemma TrueWord()
    ensures NoSpace("true") && Strip("true") == "true"
  {
    PlainWord("true");
  }

  lemma FalseWord()
    ensures NoSpace("false") && Strip("false") == "false"
  {
    PlainWord("false");
  }

  /** A word of letters strips to itself. */
  lemma PlainWord(w: string)
    requires forall i :: 0 <= i < |w| ==> 'a' <= w[i] <= 'z'
    ensures NoSpace(w) && Strip(w) == w
  {
    StripNoSpace(w);
  }

  lemma HaLiteral(p: Params, l: string, ws: seq<string>, ha: bool)
    requires |ws| > 0 && Strip(ws[|ws| - 1]) == if ha then "true" else "false"
    ensures ApplyHa(p, l, ws) == Ok(p.(ha := Some(ha)))
  {
  }

  lemma PackageKind(p: Params, l: string, ws: seq<string>, package: string)
    requires |ws| > 0 && Strip(ws[|ws| - 1]) == package
    ensures ApplyKind(p, l, PackageComment, ws) == Ok(p.(package := Some(package)))
  {
    KindBranch(p, l, PackageComment, ws);
  }

  lemma ReadName(p: Params, name: string)
    requires NoSpace(name) && Avoids(name, Quotes)
    ensures ApplyLine(p, Setting("name", Quoted(name)) + "\n") == Ok(p.(name := Some(name)))
    ensures Lacks(Setting("name", Quoted(name)), '\n')
  {
    QuotedWord(name);
    KeyWords();
    SettingKind("name", Quoted(name));
    SettingWords("name", Quoted(name));
    ValueKind(p, Setting("name", Quoted(name)) + "\n", ["name", "=", Quoted(name)], name);
  }

  lemma QuotedWord(s: string)
    requires NoSpace(s) && Avoids(s, Quotes)
    ensures |Quoted(s)| > 0 && NoSpace(Quoted(s)) && RemoveChars(Quoted(s), Quotes) == s
  {
    NoSpaceConcat("'", s);
    NoSpaceConcat("'" + s, "'");
    RemoveCharsAppend("'" + s, "'", Quotes);
    RemoveCharsAppend("'", s, Quotes);
    RemoveCharsNone(s, Quotes);
  }

  lemma DecimalWord(n: int)
    ensures |IntToString(n)| > 0 && NoSpace(IntToString(n)) && RemoveChars(IntToString(n), Quotes) == IntToString(n)
  {
    IntToStringWord(n);
    RemoveCharsNone(IntToString(n), Quotes);
  }

  lemma ReadMem(p: Params, mem: int)
    ensures ApplyLine(p, Setting("maxmem", IntToString(mem)) + "\n") == Ok(p.(mem := Some(IntToString(mem))))
    ensures Lacks(Setting("maxmem", IntToString(mem)), '\n')
  {
    DecimalWord(mem);
    KeyWords();
    SettingKind("maxmem", IntToString(mem));
    SettingWords("maxmem", IntToString(mem));
    ValueKind(p, Setting("maxmem", IntToString(mem)) + "\n", ["maxmem", "=", IntToString(mem)], IntToString(mem));
  }

  /** A VM without memory writes `maxmem = `, whose third word is nil: reading it back raises. */
  lemma MemlessLineFails(p: Params)
    ensures ApplyLine(p, Setting("maxmem", "") + "\n") == Err(MalformedLine(Setting("maxmem", "") + "\n"))
  {
    SettingKind("maxmem", "");
    MemlessWords();
  }

  lemma MemlessWords()
    ensures Words(Setting("maxmem", "") + "\n") == ["maxmem", "="]
  {
    assert ["maxmem", "="][1..] == ["="];
    assert Setting("maxmem", "") + "\n" == Phrase(["maxmem", "="]) + " \n";
    WordsOfPhraseSpaced(["maxmem", "="]);
  }

  /** A line that matches no regular expression changes nothing. */
  lemma ReadIgnored(p: Params, key: string, value: string)
    requires key in WrittenKeys && KeyKind(key) == Unmatched
    ensures ApplyLine(p, Setting(key, value) + "\n") == Ok(p)
  {
    SettingKind(key, value);
  }

  /** A path the disk tokens carry through cleaning unchanged. */
  predicate DiskPathOk(s: string)
  {
    NoSpace(s) && Avoids(s, Brackets) && Lacks(s, ',') && !Contains(s, "tap:aio:")
  }

  lemma DiskPathPlain(t: string)
    requires DiskPathOk(t)
    ensures DiskPath(t) == t
  {
    RemoveCharsNone(t, Brackets);
    assert CutAt(t, ',') == t;
    RemoveAllAbsent(t, "tap:aio:");
    StripNoSpace(t);
  }

  lemma CleanedEntry(pre: string, path: string, post: string)
    requires RemoveChars(pre, Brackets) == "tap:aio:"
    requires |post| > 0 && post[0] == ',' && Avoids(path, Brackets)
    ensures RemoveChars(pre + path + post, Brackets) == "tap:aio:" + path + [','] + RemoveChars(post[1..], Brackets)
  {
    RemoveCharsAppend(pre + path, post, Brackets);
    RemoveCharsAppend(pre, path, Brackets);
    RemoveCharsNone(path, Brackets);
    assert post == [','] + post[1..];
    RemoveCharsAppend([','], post[1..], Brackets);
  }

  lemma DiskPathOf(pre: string, path: string, post: string)
    requires RemoveChars(pre, Brackets) == "tap:aio:"
    requires |post| > 0 && post[0] == ','
    requires DiskPathOk(path)
    ensures DiskPath(pre + path + post) == path
  {
    CleanedEntry(pre, path, post);
    var rest := RemoveChars(post[1..], Brackets);
    LacksConcat("tap:aio:", path, ',');
    CutAtField("tap:aio:" + path, ',', rest);
    RemoveAllLeading("tap:aio:", path);
    StripNoSpace(path);
  }

  lemma EntryOpenings()
    ensures RemoveChars("['tap:aio:", Brackets) == "tap:aio:"
    ensures RemoveChars("'tap:aio:", Brackets) == "tap:aio:"
  {
    RemoveCharsNone("tap:aio:", Brackets);
    assert "'tap:aio:"[1..] == "tap:aio:";
    assert "['tap:aio:"[1..] == "'tap:aio:";
  }

  /** The words of the disk line. */
  function DiskWords(image: string, swap: string): seq<string>
  {
    ["disk", "=", "['tap:aio:" + image + ",xvda,w',", "'tap:aio:" + swap + ",xvdb,w']"]
  }

  lemma DiskLinePhrase(image: string, swap: string)
    ensures DiskLine(image, swap) == Phrase(DiskWords(image, swap))
  {
    var t1 := "['tap:aio:" + image + ",xvda,w',";
    var t2 := "'tap:aio:" + swap + ",xvdb,w']";
    PhraseFour("disk", "=", t1, t2);
    DiskEntries(image, swap);
  }

  /** The bracketed pair of disk entries is the two entry words with one space between. */
  lemma DiskEntries(image: string, swap: string)
    ensures "[" + DiskEntry(image, "xvda") + ", " + DiskEntry(swap, "xvdb") + "]"
         == ("['tap:aio:" + image + ",xvda,w',") + " " + ("'tap:aio:" + swap + ",xvdb,w']")
  {
  }

  lemma PhraseFour(a: string, b: string, c: string, d: string)
    ensures Phrase([a, b, c, d]) == a + " " + b + " " + c + " " + d
  {
    var ws := [a, b, c, d];
    assert ws[1..] == [b, c, d] && ws[1..][1..] == [c, d] && [c, d][1..] == [d];
    assert Phrase([c, d]) == c + " " + d;
    assert Phrase([b, c, d]) == b + " " + (c + " " + d);
  }

  lemma DiskWordsAll(image: string, swap: string)
    requires NoSpace(image) && NoSpace(swap)
    ensures AllWords(DiskWords(image, swap))
  {
    NoSpaceConcat("['tap:aio:", image);
    NoSpaceConcat("['tap:aio:" + image, ",xvda,w',");
    NoSpaceConcat("'tap:aio:", swap);
    NoSpaceConcat("'tap:aio:" + swap, ",xvdb,w']");
  }

  lemma DiskLineWords(image: string, swap: string)
    requires NoSpace(image) && NoSpace(swap)
    ensures Words(DiskLine(image, swap) + "\n") == DiskWords(image, swap)
    ensures Lacks(DiskLine(image, swap), '\n')
  {
    var ws := DiskWords(image, swap);
    DiskLinePhrase(image, swap);
    DiskWordsAll(image, swap);
    WordsOfPhrase(ws);
    AllWordsOneLine(ws);
    PhraseLacks(ws, '\n');
  }

  lemma DiskTokenPath(p: Params, tok: string, path: string)
    requires DiskPath(tok) == path && path != "disk" && path != "="
    ensures DiskToken(p, tok) == AssignPath(p, path)
  {
  }

  lemma DiskTokenSkip(p: Params, tok: string)
    requires DiskPathOk(tok) && (tok == "disk" || tok == "=")
    ensures DiskToken(p, tok) == p
  {
    DiskPathPlain(tok);
  }

  lemma DiskTokensFour(p: Params, ws: seq<string>)
    requires |ws| == 4
    ensures DiskTokens(p, ws) == DiskToken(DiskToken(DiskToken(DiskToken(p, ws[0]), ws[1]), ws[2]), ws[3])
  {
    var q1 := DiskToken(p, ws[0]);
    var q2 := DiskToken(q1, ws[1]);
    var q3 := DiskToken(q2, ws[2]);
    assert DiskTokens(p, ws) == DiskTokens(q1, ws[1..]);
    assert DiskTokens(q1, ws[1..]) == DiskTokens(q2, ws[2..]) by { assert ws[1..][1..] == ws[2..]; }
    assert DiskTokens(q2, ws[2..]) == DiskTokens(q3, ws[3..]) by { assert ws[2..][1..] == ws[3..]; }
    assert DiskTokens(q3, ws[3..]) == DiskTokens(DiskToken(q3, ws[3]), []) by { assert ws[3..][1..] == []; }
  }

  lemma PlainWords()
    ensures DiskPathOk("disk") && DiskPathOk("=")
  {
  }

  lemma DiskTokensOf(p: Params, image: string, swap: string)
    requires DiskPathOk(image) && DiskPathOk(swap)
    requires image != "disk" && image != "=" && swap != "disk" && swap != "="
    ensures DiskTokens(p, DiskWords(image, swap)) == AssignPath(AssignPath(p, image), swap)
  {
    var ws := DiskWords(image, swap);
    EntryOpenings();
    DiskPathOf("['tap:aio:", image, ",xvda,w',");
    DiskPathOf("'tap:aio:", swap, ",xvdb,w']");
    PlainWords();
    DiskTokenSkip(p, "disk");
    DiskTokenSkip(p, "=");
    DiskTokenPath(p, ws[2], image);
    DiskTokenPath(AssignPath(p, image), ws[3], swap);
    DiskTokensFour(p, ws);
  }

  /** The paths of the disk line, each read back as image or swap by its name. */
  lemma ReadDisk(p: Params, image: string, swap: string)
    requires DiskPathOk(image) && DiskPathOk(swap)
    requires image != "disk" && image != "=" && swap != "disk" && swap != "="
    ensures ApplyLine(p, DiskLine(image, swap) + "\n") == Ok(AssignPath(AssignPath(p, image), swap))
    ensures Lacks(DiskLine(image, swap), '\n')
  {
    SettingKind("disk", "[" + DiskEntry(image, "xvda") + ", " + DiskEntry(swap, "xvdb") + "]");
    DiskLineWords(image, swap);
    DiskTokensOf(p, image, swap);
  }

  /** A vif field the cleaning leaves whole and the comma split does not cut. */
  predicate VifFieldOk(f: string)
  {
    NoSpace(f) && Avoids(f, Brackets) && Lacks(f, ',')
  }

  lemma VifBody(fields: seq<string>)
    requires |fields| >= 2
    requires forall i :: 0 <= i < |fields| ==> VifFieldOk(fields[i])
    ensures var body := JoinWith(fields, ',');
      && NoSpace(body) && Avoids(body, Brackets) && body != "vif" && body != "="
      && |VifEntry(fields)| > 0 && NoSpace(VifEntry(fields))
  {
    var body := JoinWith(fields, ',');
    JoinNoSpace(fields, ',');
    JoinAvoids(fields, ',', Brackets);
    assert body == fields[0] + [','] + JoinWith(fields[1..], ',');
    assert body[|fields[0]|] == ',';
    NoSpaceConcat("['", body);
    NoSpaceConcat("['" + body, "']");
  }

  lemma VifEntryClean(fields: seq<string>)
    requires |fields| >= 2
    requires forall i :: 0 <= i < |fields| ==> VifFieldOk(fields[i])
    ensures Strip(RemoveChars(VifEntry(fields), Brackets)) == JoinWith(fields, ',')
  {
    var body := JoinWith(fields, ',');
    VifBody(fields);
    RemoveCharsAppend("['" + body, "']", Brackets);
    RemoveCharsAppend("['", body, Brackets);
    RemoveCharsNone(body, Brackets);
    assert "['"[1..] == "'" && "']"[1..] == "]";
    StripNoSpace(body);
  }

  lemma VifTokenSkip(p: Params, tok: string)
    requires tok == "vif" || tok == "="
    ensures VifToken(p, tok) == p
  {
    RemoveCharsNone(tok, Brackets);
    StripNoSpace(tok);
  }

  lemma VifTokensThree(p: Params, ws: seq<string>)
    requires |ws| == 3
    ensures VifTokens(p, ws) == VifToken(VifToken(VifToken(p, ws[0]), ws[1]), ws[2])
  {
    var q1 := VifToken(p, ws[0]);
    var q2 := VifToken(q1, ws[1]);
    assert VifTokens(p, ws) == VifTokens(q1, ws[1..]);
    assert VifTokens(q1, ws[1..]) == VifTokens(q2, ws[2..]) by { assert ws[1..][1..] == ws[2..]; }
    assert VifTokens(q2, ws[2..]) == VifTokens(VifToken(q2, ws[2]), []) by { assert ws[2..][1..] == []; }
  }

  lemma VifTokensOf(p: Params, fields: seq<string>)
    requires |fields| >= 2 && fields[|fields| - 1] != ""
    requires forall i :: 0 <= i < |fields| ==> VifFieldOk(fields[i])
    ensures VifTokens(p, ["vif", "=", VifEntry(fields)]) == VifFields(p, fields)
  {
    var body := JoinWith(fields, ',');
    VifBody(fields);
    VifEntryClean(fields);
    RubySplitJoin(fields, ',');
    assert VifToken(p, VifEntry(fields)) == VifFields(p, fields);
    VifTokenSkip(p, "vif");
    VifTokenSkip(p, "=");
    VifTokensThree(p, ["vif", "=", VifEntry(fields)]);
  }

  /** The fields of the vif line, applied in order. */
  lemma ReadVif(p: Params, fields: seq<string>)
    requires |fields| >= 2 && fields[|fields| - 1] != ""
    requires forall i :: 0 <= i < |fields| ==> VifFieldOk(fields[i])
    ensures ApplyLine(p, Setting("vif", VifEntry(fields)) + "\n") == Ok(VifFields(p, fields))
    ensures Lacks(Setting("vif", VifEntry(fields)), '\n')
  {
    VifBody(fields);
    KeyWords();
    SettingKind("vif", VifEntry(fields));
    SettingWords("vif", VifEntry(fields));
    VifTokensOf(p, fields);
    KindBranch(p, Setting("vif", VifEntry(fields)) + "\n", VifKey, ["vif", "=", VifEntry(fields)]);
  }

  lemma VifFieldsTwo(p: Params, a: string, b: string)
    ensures VifFields(p, [a, b]) == VifField(VifField(p, a), b)
  {
    assert [a, b][1..] == [b] && [b][1..] == [];
    assert VifFields(p, [a, b]) == VifFields(VifField(p, a), [b]);
    assert VifFields(VifField(p, a), [b]) == VifFields(VifField(VifField(p, a), b), []);
  }

  lemma MacField(p: Params, mac: string)
    ensures VifField(p, "mac=" + mac) == p.(mac := Some(mac))
  {
    var f := "mac=" + mac;
    assert f[0] == 'm' && "ip="[0] == 'i';
    assert f[..4] == "mac=";
    assert !HasPrefix(f, "ip=") by { assert f[..3][0] != "ip="[0]; }
    assert DropPrefix(f, "mac=") == mac;
  }

  lemma IpField(p: Params, ip: string)
    ensures VifField(p, "ip=" + ip) == p.(ip := Some(ip))
  {
    var f := "ip=" + ip;
    assert f[..3] == "ip=";
    assert DropPrefix(f, "ip=") == ip;
  }

  lemma BridgeField(p: Params)
    ensures VifField(p, "bridge=xenbr0") == p
  {
    assert "bridge=xenbr0"[..3] != "ip=" by { assert "bridge=xenbr0"[..3][0] == 'b'; }
    assert "bridge=xenbr0"[..4] != "mac=" by { assert "bridge=xenbr0"[..4][0] == 'b'; }
  }

  lemma BridgedFields(p: Params, mac: string)
    ensures VifFields(p, ["mac=" + mac, "bridge=xenbr0"]) == p.(mac := Some(mac))
  {
    VifFieldsTwo(p, "mac=" + mac, "bridge=xenbr0");
    MacField(p, mac);
    BridgeField(p.(mac := Some(mac)));
  }

  lemma RoutedFields(p: Params, mac: string, ip: string)
    ensures VifFields(p, ["mac=" + mac, "ip=" + ip]) == p.(mac := Some(mac), ip := Some(ip))
  {
    VifFieldsTwo(p, "mac=" + mac, "ip=" + ip);
    MacField(p, mac);
    IpField(p.(mac := Some(mac)), ip);
  }

  /** A part of `distro_string` that survives both splits. */
  predicate DistroPartOk(s: string)
  {
    NoSpace(s) && Lacks(s, '-')
  }

  lemma DistroJoin(d: string, v: string, a: string)
    ensures JoinWith([d, v, a], '-') == d + ['-'] + (v + ['-'] + a)
  {
    assert [d, v, a][1..] == [v, a] && [v, a][1..] == [a];
    assert JoinWith([v, a], '-') == v + ['-'] + a;
    assert JoinWith([d, v, a], '-') == d + ['-'] + JoinWith([v, a], '-');
  }

  lemma DistroSpaceless(d: string, v: string, a: string)
    requires NoSpace(d) && NoSpace(v) && NoSpace(a)
    ensures NoSpace(d + ['-'] + (v + ['-'] + a))
  {
    NoSpaceConcat(v, "-");
    NoSpaceConcat(v + "-", a);
    NoSpaceConcat(d, "-");
    NoSpaceConcat(d + "-", v + "-" + a);
  }

  lemma DistroWord(d: string, v: string, a: string)
    requires DistroPartOk(d) && DistroPartOk(v) && DistroPartOk(a) && a != ""
    ensures var ds := JoinWith([d, v, a], '-');
      |ds| > 0 && NoSpace(ds) && RubySplit(Strip(ds), '-') == [d, v, a]
  {
    var ds := JoinWith([d, v, a], '-');
    DistroJoin(d, v, a);
    DistroSpaceless(d, v, a);
    StripNoSpace(ds);
    DistroParts(d, v, a);
  }

  lemma DistroParts(d: string, v: string, a: string)
    requires Lacks(d, '-') && Lacks(v, '-') && Lacks(a, '-') && a != ""
    ensures RubySplit(JoinWith([d, v, a], '-'), '-') == [d, v, a]
  {
    var ls := [d, v, a];
    assert forall i :: 0 <= i < |ls| ==> Lacks(ls[i], '-') by {
      forall i | 0 <= i < |ls| ensures Lacks(ls[i], '-') {
        if i == 0 { assert ls[i] == d; } else if i == 1 { assert ls[i] == v; } else { assert ls[i] == a; }
      }
    }
    RubySplitJoin(ls, '-');
  }

  lemma ReadDistro(p: Params, d: string, v: string, a: string)
    requires DistroPartOk(d) && DistroPartOk(v) && DistroPartOk(a) && a != ""
    ensures ApplyLine(p, Comment("distro", JoinWith([d, v, a], '-')) + "\n")
         == Ok(p.(distro := Some(d), version := Some(v), arch := Some(a)))
    ensures Lacks(Comment("distro", JoinWith([d, v, a], '-')), '\n')
  {
    var ds := JoinWith([d, v, a], '-');
    DistroWord(d, v, a);
    KeyWords();
    CommentKind("distro", ds);
    CommentWords("distro", ds);
    DistroKind(p, Comment("distro", ds) + "\n", ["#", "VM", "distro", "=", ds], d, v, a);
  }

  lemma ReadHa(p: Params, ha: bool)
    ensures ApplyLine(p, Comment("ha", if ha then "true" else "false") + "\n") == Ok(p.(ha := Some(ha)))
    ensures Lacks(Comment("ha", if ha then "true" else "false"), '\n')
  {
    ReadHaWord(p, if ha then "true" else "false", ha);
  }

  lemma ReadHaWord(p: Params, v: string, ha: bool)
    requires v == if ha then "true" else "false"
    ensures ApplyLine(p, Comment("ha", v) + "\n") == Ok(p.(ha := Some(ha)))
    ensures Lacks(Comment("ha", v), '\n')
  {
    if ha { TrueWord(); } else { FalseWord(); }
    HaLine(p, v);
    HaLiteral(p, Comment("ha", v) + "\n", ["#", "VM", "ha", "=", v], ha);
  }

  /** An ha comment with a one-word value takes the ha branch on its five words. */
  lemma HaLine(p: Params, v: string)
    requires |v| > 0 && NoSpace(v)
    ensures ApplyLine(p, Comment("ha", v) + "\n") == ApplyHa(p, Comment("ha", v) + "\n", ["#", "VM", "ha", "=", v])
    ensures Strip(v) == v && Lacks(Comment("ha", v), '\n')
  {
    KeyWords();
    CommentKind("ha", v);
    CommentWords("ha", v);
    StripNoSpace(v);
    KindBranch(p, Comment("ha", v) + "\n", HaComment, ["#", "VM", "ha", "=", v]);
  }

  /**
   * The ha comment sets the flag only for the literals `true` and `false`
   * (ReadHa); any other one-word value leaves it unset.
   */
  lemma ReadHaOther(p: Params, v: string)
    requires |v| > 0 && NoSpace(v) && v != "true" && v != "false"
    ensures ApplyLine(p, Comment("ha", v) + "\n") == Ok(p)
  {
    HaLine(p, v);
    HaOther(p, Comment("ha", v) + "\n", ["#", "VM", "ha", "=", v]);
  }

  lemma HaOther(p: Params, l: string, ws: seq<string>)
    requires |ws| > 0 && Strip(ws[|ws| - 1]) != "true" && Strip(ws[|ws| - 1]) != "false"
    ensures ApplyHa(p, l, ws) == Ok(p)
  {
  }

  lemma ReadPackage(p: Params, package: string)
    requires |package| > 0 && NoSpace(package)
    ensures ApplyLine(p, Comment("package", package) + "\n") == Ok(p.(package := Some(package)))
    ensures Lacks(Comment("package", package), '\n')
  {
    KeyWords();
    CommentKind("package", package);
    CommentWords("package", package);
    StripNoSpace(package);
    PackageKind(p, Comment("package", package) + "\n", ["#", "VM", "package", "=", package], package);
  }

  lemma EqualsWord()
    ensures Strip("=") == "="
  {
    StripNoSpace("=");
  }

  lemma NilPackageWords()
    ensures Words(Comment("package", "") + "\n") == ["#", "VM", "package", "="]
  {
    var ws := ["#", "VM", "package", "="];
    assert ws[1..] == ["VM", "package", "="] && ws[1..][1..] == ["package", "="] && ws[1..][1..][1..] == ["="];
    assert Phrase(ws) == "# VM package =";
    assert Comment("package", "") + "\n" == Phrase(ws) + " \n";
    WordsOfPhraseSpaced(ws);
  }

  /** A VM without package writes `# VM package = `, whose last word is "=". */
  lemma NilPackageReadsAsEquals(p: Params)
    ensures ApplyLine(p, Comment("package", Show(None)) + "\n") == Ok(p.(package := Some("=")))
  {
    NilPackageWords();
    EqualsWord();
    PackageLine(p, "", ["#", "VM", "package", "="], "=");
  }

  /** A package comment whose last word strips to `package`. */
  lemma PackageLine(p: Params, v: string, ws: seq<string>, package: string)
    requires Words(Comment("package", v) + "\n") == ws
    requires |ws| > 0 && Strip(ws[|ws| - 1]) == package
    ensures ApplyLine(p, Comment("package", v) + "\n") == Ok(p.(package := Some(package)))
  {
    CommentKind("package", v);
    PackageKind(p, Comment("package", v) + "\n", ws, package);
  }

  // ---------------------------------------------------------------------
  // Reading a whole written file back

  /** The lines `ls`, written one per line and read back by `gets`, decoded from `p`. */
  function ReadBack(p: Params, ls: seq<string>): Result<Params>
  {
    DecodeLines(p, Terminated(ls))
  }

  /** Decoding two runs of lines decodes the second from what the first leaves, or stops at its error. */
  lemma {:induction false} DecodeAppend(p: Params, a: seq<string>, b: seq<string>)
    ensures DecodeLines(p, a + b) == match DecodeLines(p, a) case Err(e) => Err(e) case Ok(q) => DecodeLines(q, b)
    decreases |a|
  {
    if |a| == 0 {
      assert a + b == b;
    } else {
      assert (a + b)[0] == a[0] && (a + b)[1..] == a[1..] + b;
      match ApplyLine(p, a[0]) {
        case Err(e) =>
        case Ok(q) => DecodeAppend(q, a[1..], b);
      }
    }
  }

  lemma TerminatedAppend(a: seq<string>, b: seq<string>)
    ensures Terminated(a + b) == Terminated(a) + Terminated(b)
  {
    assert forall i :: |a| <= i < |a + b| ==> (a + b)[i] == b[i - |a|];
  }

  lemma ReadBackAppend(p: Params, a: seq<string>, b: seq<string>)
    ensures ReadBack(p, a + b) == match ReadBack(p, a) case Err(e) => Err(e) case Ok(q) => ReadBack(q, b)
  {
    TerminatedAppend(a, b);
    DecodeAppend(p, Terminated(a), Terminated(b));
  }

  /** A first line read as `q` leaves the rest to be read from `q`. */
  lemma ReadBackFirst(p: Params, ls: seq<string>, q: Params)
    requires |ls| > 0 && ApplyLine(p, ls[0] + "\n") == Ok(q)
    ensures ReadBack(p, ls) == ReadBack(q, ls[1..])
  {
    assert Terminated(ls)[1..] == Terminated(ls[1..]);
  }

  lemma ReadBackTwo(p: Params, ls: seq<string>, q1: Params, q2: Params)
    requires |ls| == 2
    requires ApplyLine(p, ls[0] + "\n") == Ok(q1) && ApplyLine(q1, ls[1] + "\n") == Ok(q2)
    ensures ReadBack(p, ls) == Ok(q2)
  {
    ReadBackFirst(p, ls, q1);
    ReadBackFirst(q1, ls[1..], q2);
    assert ls[1..][1..] == [];
  }

  lemma ReadBackThree(p: Params, ls: seq<string>, q1: Params, q2: Params, q3: Params)
    requires |ls| == 3
    requires ApplyLine(p, ls[0] + "\n") == Ok(q1) && ApplyLine(q1, ls[1] + "\n") == Ok(q2)
    requires ApplyLine(q2, ls[2] + "\n") == Ok(q3)
    ensures ReadBack(p, ls) == Ok(q3)
  {
    ReadBackFirst(p, ls, q1);
    ReadBackTwo(q1, ls[1..], q2, q3);
  }

  lemma ReadBackFour(p: Params, ls: seq<string>, q1: Params, q2: Params, q3: Params, q4: Params)
    requires |ls| == 4
    requires ApplyLine(p, ls[0] + "\n") == Ok(q1) && ApplyLine(q1, ls[1] + "\n") == Ok(q2)
    requires ApplyLine(q2, ls[2] + "\n") == Ok(q3) && ApplyLine(q3, ls[3] + "\n") == Ok(q4)
    ensures ReadBack(p, ls) == Ok(q4)
  {
    ReadBackFirst(p, ls, q1);
    ReadBackThree(q1, ls[1..], q2, q3, q4);
  }

  lemma LinesLack(ls: seq<string>)
    requires 1 <= |ls| <= 4 && Lacks(ls[0], '\n')
    requires |ls| > 1 ==> Lacks(ls[1], '\n')
    requires |ls| > 2 ==> Lacks(ls[2], '\n')
    requires |ls| > 3 ==> Lacks(ls[3], '\n')
    ensures NoneHas(ls, '\n')
  {
  }

  /** The written values that are single lines in themselves. */
  lemma ValuesOneLine()
    ensures Lacks("memory", '\n') && Lacks("bootloader", '\n') && Lacks("/usr/bin/pygrub", '\n')
    ensures Lacks("on_poweroff", '\n') && Lacks("on_reboot", '\n') && Lacks("on_crash", '\n')
    ensures Lacks("destroy", '\n') && Lacks("restart", '\n')
    ensures Lacks("kernel", '\n') && Lacks("ramdisk", '\n') && Lacks("extra", '\n')
  {
  }

  lemma CommentOneLine(key: string, value: string)
    requires Lacks(key, '\n') && Lacks(value, '\n')
    ensures Lacks(Comment(key, value), '\n')
  {
    LacksConcat("# VM ", key, '\n');
    LacksConcat("# VM " + key, " =", '\n');
    LacksConcat(Tag(key), " ", '\n');
    LacksConcat(Tag(key) + " ", value, '\n');
  }

  /** `name`, `maxmem` and `memory`: the name unquoted and the memory as its decimal text. */
  lemma NameMemReads(p: Params, vm: Vm)
    requires NoSpace(vm.name) && Avoids(vm.name, Quotes) && vm.mem.Some?
    ensures ReadBack(p, NameMemLines(vm)) == Ok(p.(name := Some(vm.name), mem := Some(IntToString(vm.mem.value))))
    ensures NoneHas(NameMemLines(vm), '\n')
  {
    var ls := NameMemLines(vm);
    var m := IntToString(vm.mem.value);
    assert ls == [Setting("name", Quoted(vm.name)), Setting("maxmem", m), Setting("memory", m)];
    var q1 := p.(name := Some(vm.name));
    var q2 := q1.(mem := Some(m));
    ReadName(p, vm.name);
    ReadMem(q1, vm.mem.value);
    ReadIgnored(q2, "memory", m);
    ReadBackThree(p, ls, q1, q2, q2);
    MemoryLineLacks(m, vm.mem.value);
    LinesLack(ls);
  }

  lemma MemoryLineLacks(m: string, mem: int)
    requires m == IntToString(mem)
    ensures Lacks(Setting("memory", m), '\n')
  {
    DecimalWord(mem);
    assert Lacks("memory", '\n');
    SettingOneLine("memory", m);
  }

  /** The `bootloader` line changes nothing; the disk line sets both paths. */
  lemma BootDiskReads(p: Params, image: string, swap: string)
    requires DiskPathOk(image) && DiskPathOk(swap)
    requires image != "disk" && image != "=" && swap != "disk" && swap != "="
    ensures ReadBack(p, [Setting("bootloader", Quoted("/usr/bin/pygrub")), DiskLine(image, swap)])
         == Ok(AssignPath(AssignPath(p, image), swap))
    ensures NoneHas([Setting("bootloader", Quoted("/usr/bin/pygrub")), DiskLine(image, swap)], '\n')
  {
    var ls := [Setting("bootloader", Quoted("/usr/bin/pygrub")), DiskLine(image, swap)];
    ReadIgnored(p, "bootloader", Quoted("/usr/bin/pygrub"));
    ValuesOneLine();
    SettingOneLine("bootloader", "/usr/bin/pygrub");
    ReadDisk(p, image, swap);
    ReadBackTwo(p, ls, p, AssignPath(AssignPath(p, image), swap));
    LinesLack(ls);
  }

  lemma FieldLiterals()
    ensures VifFieldOk("mac=") && VifFieldOk("ip=") && VifFieldOk("bridge=xenbr0")
  {
  }

  lemma PrefixedField(pre: string, s: string)
    requires VifFieldOk(pre) && VifFieldOk(s)
    ensures VifFieldOk(pre + s)
  {
    NoSpaceConcat(pre, s);
    AvoidsConcat(pre, s, Brackets);
    LacksConcat(pre, s, ',');
  }

  /** The vif line of a bridged network sets the MAC, of a routed one MAC and address; other networks write none. */
  lemma VifLinesRead(p: Params, n: NetInfo)
    requires VifFieldOk(n.mac) && VifFieldOk(n.ip)
    ensures ReadBack(p, VifLines(n)) == Ok(
      if n.linkType == "bridged" then p.(mac := Some(n.mac))
      else if n.linkType == "routed" then p.(mac := Some(n.mac), ip := Some(n.ip))
      else p)
    ensures NoneHas(VifLines(n), '\n')
  {
    FieldLiterals();
    PrefixedField("mac=", n.mac);
    PrefixedField("ip=", n.ip);
    if n.linkType == "bridged" {
      var fs := ["mac=" + n.mac, "bridge=xenbr0"];
      assert forall i :: 0 <= i < |fs| ==> VifFieldOk(fs[i]);
      ReadVif(p, fs);
      BridgedFields(p, n.mac);
      ReadBackFirst(p, VifLines(n), p.(mac := Some(n.mac)));
      LinesLack(VifLines(n));
    } else if n.linkType == "routed" {
      var fs := ["mac=" + n.mac, "ip=" + n.ip];
      assert forall i :: 0 <= i < |fs| ==> VifFieldOk(fs[i]);
      ReadVif(p, fs);
      RoutedFields(p, n.mac, n.ip);
      ReadBackFirst(p, VifLines(n), p.(mac := Some(n.mac), ip := Some(n.ip)));
      LinesLack(VifLines(n));
    }
  }

  /** The three `on_*` lines change nothing. */
  lemma ActionsRead(p: Params, reboot: string)
    requires Lacks(reboot, '\n')
    ensures ReadBack(p, ActionLines(reboot)) == Ok(p)
    ensures NoneHas(ActionLines(reboot), '\n')
  {
    var ls := ActionLines(reboot);
    ValuesOneLine();
    ReadIgnored(p, "on_poweroff", Quoted("destroy"));
    ReadIgnored(p, "on_reboot", Quoted(reboot));
    ReadIgnored(p, "on_crash", Quoted(reboot));
    SettingOneLine("on_poweroff", "destroy");
    SettingOneLine("on_reboot", reboot);
    SettingOneLine("on_crash", reboot);
    ReadBackThree(p, ls, p, p, p);
    LinesLack(ls);
  }

  lemma NilPackageOneLine()
    ensures Lacks(Comment("package", ""), '\n')
  {
    assert Lacks("package", '\n');
    CommentOneLine("package", "");
  }

  /** The package comment: the package, or "=" for a VM without one. */
  function PackageReadBack(package: Option<string>): Option<string>
  {
    if package.Some? then package else Some("=")
  }

  lemma PackageRead(p: Params, package: Option<string>)
    requires package.Some? ==> |package.value| > 0 && NoSpace(package.value)
    ensures ApplyLine(p, Comment("package", Show(package)) + "\n") == Ok(p.(package := PackageReadBack(package)))
    ensures Lacks(Comment("package", Show(package)), '\n')
  {
    if package.Some? {
      ReadPackage(p, package.value);
    } else {
      NilPackageReadsAsEquals(p);
      NilPackageOneLine();
    }
  }

  /** The details block: the header changes nothing, the comments set distro, version, arch, HA flag and package. */
  lemma DetailsRead(p: Params, vm: Vm, d: string, v: string, a: string)
    requires DistroPartOk(d) && DistroPartOk(v) && DistroPartOk(a) && a != ""
    requires vm.package.Some? ==> |vm.package.value| > 0 && NoSpace(vm.package.value)
    ensures ReadBack(p, DetailLines(vm, JoinWith([d, v, a], '-')))
         == Ok(p.(distro := Some(d), version := Some(v), arch := Some(a), ha := Some(vm.ha),
                  package := PackageReadBack(vm.package)))
    ensures NoneHas(DetailLines(vm, JoinWith([d, v, a], '-')), '\n')
  {
    var ds := JoinWith([d, v, a], '-');
    var ls := DetailLines(vm, ds);
    assert ls == [DetailsHeader, Comment("distro", ds), Comment("ha", if vm.ha then "true" else "false"),
                  Comment("package", Show(vm.package))];
    var q1 := p.(distro := Some(d), version := Some(v), arch := Some(a));
    var q2 := q1.(ha := Some(vm.ha));
    var q3 := q2.(package := PackageReadBack(vm.package));
    ReadHeader(p);
    ReadDistro(p, d, v, a);
    ReadHa(q1, vm.ha);
    PackageRead(q2, vm.package);
    ReadBackFour(p, ls, p, q1, q2, q3);
    LinesLack(ls);
  }

  // ---------------------------------------------------------------------
  // create_config, then load_from_conf

  /** What load_from_conf reads from the file create_config writes for `vm`. */
  function FileParams(vm: Vm): Params
  {
    var routed := vm.network.Some? && vm.network.value.linkType == "routed";
    var bridged := vm.network.Some? && vm.network.value.linkType == "bridged";
    Params(
      Some(vm.name), PackageReadBack(vm.package), vm.distro, vm.version, vm.arch,
      if routed then Some(vm.network.value.ip) else None,
      if bridged || routed then Some(vm.network.value.mac) else None,
      None, None, Some(vm.ha), Some(vm.imagePath), Some(vm.swapPath), Some(ShowInt(vm.mem)))
  }

  /** The `key = value` lines of a VM survive the splitting and cleaning of the decoder. */
  predicate SettingsRereadable(vm: Vm)
  {
    && vm.network.Some? && vm.mem.Some?
    && NoSpace(vm.name) && Avoids(vm.name, Quotes)
    && DiskPathOk(vm.imagePath) && DiskPathOk(vm.swapPath)
    && vm.imagePath != "disk" && vm.imagePath != "="
    && !SwapImage(vm.imagePath) && SwapImage(vm.swapPath)
    && VifFieldOk(vm.network.value.mac) && VifFieldOk(vm.network.value.ip)
  }

  /** So do the details comments, and create_config does not raise. */
  predicate Rereadable(vm: Vm)
  {
    && SettingsRereadable(vm)
    && vm.distro.Some? && vm.version.Some? && vm.arch.Some?
    && DistroPartOk(vm.distro.value) && DistroPartOk(vm.version.value) && DistroPartOk(vm.arch.value)
    && vm.arch.value != ""
    && (vm.package.Some? ==> |vm.package.value| > 0 && NoSpace(vm.package.value))
  }

  /** The parameters after the lines a VM's two configs have in common, before the vif line. */
  function SettingsParams(vm: Vm): Params
  {
    NoParams.(name := Some(vm.name), mem := Some(ShowInt(vm.mem)),
              imagePath := Some(vm.imagePath), swapPath := Some(vm.swapPath))
  }

  /** The vif line applied to `p`. */
  function VifParams(p: Params, n: NetInfo): Params
  {
    if n.linkType == "bridged" then p.(mac := Some(n.mac))
    else if n.linkType == "routed" then p.(mac := Some(n.mac), ip := Some(n.ip))
    else p
  }

  lemma PathsAssigned(p: Params, image: string, swap: string)
    requires !SwapImage(image) && SwapImage(swap)
    ensures AssignPath(AssignPath(p, image), swap) == p.(imagePath := Some(image), swapPath := Some(swap))
  {
  }

  /** The name, memory, bootloader and disk lines. */
  function LeadingLines(vm: Vm): seq<string>
  {
    NameMemLines(vm) + [Setting("bootloader", Quoted("/usr/bin/pygrub")), DiskLine(vm.imagePath, vm.swapPath)]
  }

  lemma LeadingLinesRead(vm: Vm)
    requires SettingsRereadable(vm)
    ensures ReadBack(NoParams, LeadingLines(vm)) == Ok(SettingsParams(vm))
    ensures NoneHas(LeadingLines(vm), '\n')
  {
    var a := NameMemLines(vm);
    var b := [Setting("bootloader", Quoted("/usr/bin/pygrub")), DiskLine(vm.imagePath, vm.swapPath)];
    var p1 := NoParams.(name := Some(vm.name), mem := Some(IntToString(vm.mem.value)));
    NameMemReads(NoParams, vm);
    BootDiskReads(p1, vm.imagePath, vm.swapPath);
    ReadBackAppend(NoParams, a, b);
    NoneHasAppend(a, b, '\n');
    PathsAssigned(p1, vm.imagePath, vm.swapPath);
  }

  lemma TrailingLinesRead(vm: Vm)
    requires Rereadable(vm)
    ensures var n := vm.network.value;
      var ls := VifLines(n) + ActionLines("restart")
                + DetailLines(vm, JoinWith([vm.distro.value, vm.version.value, vm.arch.value], '-'));
      && ReadBack(SettingsParams(vm), ls) == Ok(FileParams(vm))
      && NoneHas(ls, '\n')
  {
    var d, v, a := vm.distro.value, vm.version.value, vm.arch.value;
    var n := vm.network.value;
    var c := VifLines(n);
    var dd := ActionLines("restart");
    var e := DetailLines(vm, JoinWith([d, v, a], '-'));
    var p2 := SettingsParams(vm);
    var p3 := VifParams(p2, n);
    VifLinesRead(p2, n);
    ValuesOneLine();
    ActionsRead(p3, "restart");
    DetailsRead(p3, vm, d, v, a);
    ReadBackAppend(p2, c, dd);
    ReadBackAppend(p2, c + dd, e);
    NoneHasAppend(c, dd, '\n');
    NoneHasAppend(c + dd, e, '\n');
  }

  /**
   * The file create_config writes reads back as the VM's name, memory,
   * paths, MAC (and address, when routed), distribution, HA flag and
   * package; a VM without package reads back with package "=".
   */
  lemma ConfigRoundTrip(vm: Vm)
    requires Rereadable(vm)
    ensures CreateConfig(vm).Ok?
    ensures DecodeConf(CreateConfig(vm).value) == Ok(FileParams(vm))
  {
    var ab := LeadingLines(vm);
    var rest := VifLines(vm.network.value) + ActionLines("restart")
                + DetailLines(vm, JoinWith([vm.distro.value, vm.version.value, vm.arch.value], '-'));
    var ls := ConfigLines(vm).value;
    assert ls == ab + rest;
    LeadingLinesRead(vm);
    TrailingLinesRead(vm);
    ReadBackAppend(NoParams, ab, rest);
    NoneHasAppend(ab, rest, '\n');
    GetsLinesUnlines(ls);
  }

  /** The kernel, ramdisk and installer-argument lines, each a quoted value. */
  function KsBootValues(cfg: Config, vm: Vm): seq<string>
    requires vm.network.Some?
  {
    [BootFile(cfg, vm, "vmlinuz"), BootFile(cfg, vm, "initrd.img"),
     InstallerArgs(cfg, vm.network.value, KickstartBuilderUrl(cfg, vm).value)]
  }

  /** A `key = 'value'` line whose key the decoder ignores. */
  lemma IgnoredSetting(p: Params, key: string, value: string)
    requires key in WrittenKeys && KeyKind(key) == Unmatched
    requires Lacks(key, '\n') && Lacks(value, '\n')
    ensures ApplyLine(p, Setting(key, Quoted(value)) + "\n") == Ok(p)
    ensures Lacks(Setting(key, Quoted(value)), '\n')
  {
    ReadIgnored(p, key, Quoted(value));
    SettingOneLine(key, value);
  }

  lemma KsKeys()
    ensures "kernel" in WrittenKeys && KeyKind("kernel") == Unmatched && Lacks("kernel", '\n')
    ensures "ramdisk" in WrittenKeys && KeyKind("ramdisk") == Unmatched && Lacks("ramdisk", '\n')
    ensures "extra" in WrittenKeys && KeyKind("extra") == Unmatched && Lacks("extra", '\n')
  {
  }

  lemma KsValuesRead(p: Params, vs: seq<string>)
    requires |vs| == 3 && Lacks(vs[0], '\n') && Lacks(vs[1], '\n') && Lacks(vs[2], '\n')
    ensures var ls := [Setting("kernel", Quoted(vs[0])), Setting("ramdisk", Quoted(vs[1])), Setting("extra", Quoted(vs[2]))];
      ReadBack(p, ls) == Ok(p) && NoneHas(ls, '\n')
  {
    var ls := [Setting("kernel", Quoted(vs[0])), Setting("ramdisk", Quoted(vs[1])), Setting("extra", Quoted(vs[2]))];
    KsKeys();
    IgnoredSetting(p, "kernel", vs[0]);
    IgnoredSetting(p, "ramdisk", vs[1]);
    IgnoredSetting(p, "extra", vs[2]);
    ReadBackThree(p, ls, p, p, p);
    LinesLack(ls);
  }

  lemma KsBootLinesRead(p: Params, vs: seq<string>, image: string, swap: string)
    requires |vs| == 3 && NoneHas(vs, '\n')
    requires DiskPathOk(image) && DiskPathOk(swap)
    requires image != "disk" && image != "=" && swap != "disk" && swap != "="
    ensures var ls := [Setting("kernel", Quoted(vs[0])), Setting("ramdisk", Quoted(vs[1])),
                       Setting("extra", Quoted(vs[2])), DiskLine(image, swap)];
      && ReadBack(p, ls) == Ok(AssignPath(AssignPath(p, image), swap))
      && NoneHas(ls, '\n')
  {
    var a := [Setting("kernel", Quoted(vs[0])), Setting("ramdisk", Quoted(vs[1])), Setting("extra", Quoted(vs[2]))];
    var b := [DiskLine(image, swap)];
    assert a + b == [Setting("kernel", Quoted(vs[0])), Setting("ramdisk", Quoted(vs[1])),
                     Setting("extra", Quoted(vs[2])), DiskLine(image, swap)];
    KsValuesRead(p, vs);
    ReadDisk(p, image, swap);
    ReadBackFirst(p, b, AssignPath(AssignPath(p, image), swap));
    LinesLack(b);
    ReadBackAppend(p, a, b);
    NoneHasAppend(a, b, '\n');
  }

  lemma KsBootReads(p: Params, cfg: Config, vm: Vm)
    requires SettingsRereadable(vm) && NoneHas(KsBootValues(cfg, vm), '\n')
    ensures var vs := KsBootValues(cfg, vm);
      var ls := [Setting("kernel", Quoted(vs[0])), Setting("ramdisk", Quoted(vs[1])),
                 Setting("extra", Quoted(vs[2])), DiskLine(vm.imagePath, vm.swapPath)];
      && ReadBack(p, ls) == Ok(AssignPath(AssignPath(p, vm.imagePath), vm.swapPath))
      && NoneHas(ls, '\n')
  {
    KsBootLinesRead(p, KsBootValues(cfg, vm), vm.imagePath, vm.swapPath);
  }

  /**
   * The file create_config_for_ks writes has no details block: it reads
   * back as the VM's name, memory, paths and MAC (and address, when
   * routed), with no distribution, HA flag or package.
   */
  lemma KsConfigRoundTrip(cfg: Config, vm: Vm)
    requires SettingsRereadable(vm) && NoneHas(KsBootValues(cfg, vm), '\n')
    ensures CreateConfigForKs(cfg, vm).Ok?
    ensures DecodeConf(CreateConfigForKs(cfg, vm).value)
         == Ok(FileParams(vm).(package := None, distro := None, version := None, arch := None, ha := None))
  {
    var vs := KsBootValues(cfg, vm);
    var n := vm.network.value;
    var a := NameMemLines(vm);
    var b := [Setting("kernel", Quoted(vs[0])), Setting("ramdisk", Quoted(vs[1])),
              Setting("extra", Quoted(vs[2])), DiskLine(vm.imagePath, vm.swapPath)];
    var c := VifLines(n) + ActionLines("destroy");
    var ls := KsConfigLines(cfg, vm).value;
    assert ls == a + b + c;
    var p1 := NoParams.(name := Some(vm.name), mem := Some(IntToString(vm.mem.value)));
    PathsAssigned(p1, vm.imagePath, vm.swapPath);
    NameMemReads(NoParams, vm);
    KsBootReads(p1, cfg, vm);
    KsTrailingRead(vm);
    ReadBackAppend(NoParams, a, b);
    ReadBackAppend(NoParams, a + b, c);
    NoneHasAppend(a, b, '\n');
    NoneHasAppend(a + b, c, '\n');
    GetsLinesUnlines(ls);
  }

  lemma KsTrailingRead(vm: Vm)
    requires SettingsRereadable(vm)
    ensures var ls := VifLines(vm.network.value) + ActionLines("destroy");
      && ReadBack(SettingsParams(vm), ls)
         == Ok(FileParams(vm).(package := None, distro := None, version := None, arch := None, ha := None))
      && NoneHas(ls, '\n')
  {
    var n := vm.network.value;
    var p3 := VifParams(SettingsParams(vm), n);
    VifLinesRead(SettingsParams(vm), n);
    ValuesOneLine();
    ActionsRead(p3, "destroy");
    ReadBackAppend(SettingsParams(vm), VifLines(n), ActionLines("destroy"));
    NoneHasAppend(VifLines(n), ActionLines("destroy"), '\n');
  }

  /**
   * Reloading the file create_config wrote builds the VM again from the
   * parameters read: name, distribution, HA flag, package and paths are
   * the written ones; the network comes back only for a routed VM (only
   * its vif line names the address); memory and swap come from the package
   * again, since `maxmem` is read into params[:mem] and never used.
   */
  lemma ReloadedVm(cfg: Config, vm: Vm, e: Entropy)
    requires Rereadable(vm)
    ensures CreateConfig(vm).Ok?
    ensures var r := LoadedVm(cfg, CreateConfig(vm).value, NoParams, e);
      && r == Instance(cfg, FileParams(vm), e)
      && (r.Ok? ==>
            && r.value.name == vm.name && r.value.ha == vm.ha
            && r.value.distro == vm.distro && r.value.version == vm.version && r.value.arch == vm.arch
            && r.value.package == PackageReadBack(vm.package)
            && r.value.imagePath == vm.imagePath && r.value.swapPath == vm.swapPath
            && r.value.mntPath == "/mnt/" + vm.name
            && (r.value.network.Some? <==> vm.network.value.linkType == "routed")
            && r.value.mem == Some(PackageAttribute(cfg.packages, PackageReadBack(vm.package).value, Mem).value))
  {
    ConfigRoundTrip(vm);
    MergeLaws(FileParams(vm), NoParams, NoParams);
    var r := LoadedVm(cfg, CreateConfig(vm).value, NoParams, e);
    if r.Ok? {
      InstancePaths(cfg, FileParams(vm), e);
      InstanceNetwork(cfg, FileParams(vm), e);
      InstanceSizes(cfg, FileParams(vm), e);
    }
  }

  /** extra_params override what the file holds, key by key. */
  lemma ExtraOverrides(cfg: Config, vm: Vm, extra: Params, e: Entropy)
    requires Rereadable(vm)
    ensures CreateConfig(vm).Ok?
    ensures var r := LoadedVm(cfg, CreateConfig(vm).value, extra, e);
      && r == Instance(cfg, Merge(FileParams(vm), extra), e)
      && (r.Ok? && extra.name.Some? ==> r.value.name == extra.name.value)
      && (r.Ok? && extra.distro.Some? ==> r.value.distro == extra.distro)
      && (r.Ok? && extra.imagePath.Some? ==> r.value.imagePath == extra.imagePath.value)
      && (r.Ok? && extra.ha.Some? ==> r.value.ha == (extra.ha == Some(true)))
  {
    ConfigRoundTrip(vm);
    var r := LoadedVm(cfg, CreateConfig(vm).value, extra, e);
    if r.Ok? {
      InstanceOverrides(cfg, FileParams(vm), extra, e);
    }
  }

  lemma MemlessReadBack(ls: seq<string>, name: string)
    requires |ls| >= 2 && ls[0] == Setting("name", Quoted(name)) && ls[1] == Setting("maxmem", "")
    requires NoSpace(name) && Avoids(name, Quotes)
    ensures ReadBack(NoParams, ls).Err?
  {
    var q1 := NoParams.(name := Some(name));
    ReadName(NoParams, name);
    MemlessLineFails(q1);
    ReadBackFirst(NoParams, ls, q1);
    assert Terminated(ls[1..])[0] == ls[1] + "\n";
  }

  /** A VM without memory (no package) is written with `maxmem = `, and its file cannot be read back. */
  lemma MemlessConfigFails(vm: Vm)
    requires vm.mem.None? && CreateConfig(vm).Ok?
    requires NoSpace(vm.name) && Avoids(vm.name, Quotes) && NoneHas(ConfigLines(vm).value, '\n')
    ensures DecodeConf(CreateConfig(vm).value).Err?
  {
    var ls := ConfigLines(vm).value;
    MemlessReadBack(ls, vm.name);
    GetsLinesUnlines(ls);
  }

  /** A line that matches none of the patterns can be dropped from any file without changing what it decodes to. */
  lemma IgnoredLine(p: Params, a: seq<string>, l: string, b: seq<string>)
    requires Classify(l) == Unmatched
    ensures DecodeLines(p, a + [l] + b) == DecodeLines(p, a + b)
  {
    assert a + [l] + b == a + ([l] + b);
    DecodeAppend(p, a, [l] + b);
    DecodeAppend(p, a, b);
    assert ([l] + b)[0] == l && ([l] + b)[1..] == b;
  }

  /** The default swap file of `initialize` always reads back as the swap file. */
  lemma DefaultSwapPath(root: string, name: string)
    ensures SwapImage(root + "/" + name + "-swap.img")
  {
    var t := root + "/" + name + "-swap.img";
    assert t[|t| - 9..] == "-swap.img";
  }

  /**
   * The default image file reads back as the image unless the VM's name
   * itself ends in "-swap"; then the image line is taken for the swap file.
   */
  lemma DefaultImagePath(root: string, name: string)
    ensures SwapImage(root + "/" + name + ".img") <==> |name| >= 5 && name[|name| - 5..] == "-swap"
  {
    var u := root + "/" + name;
    var t := u + ".img";
    assert t[|t| - 3..] == "img";
    if |name| >= 5 {
      assert t[|t| - 9..|t| - 4] == name[|name| - 5..];
    } else if |t| >= 9 {
      var k := 4 - |name|;
      assert t[|root|] == '/';
      assert t[|t| - 9..|t| - 4][k] == t[|root|];
      assert "-swap"[k] != '/';
    }
  }
}

# Xen VM definitions and their kickstart file, in Dafny

This project models the core of a small Xen provisioning toolkit. The
`VirtualMachine` class (`vmscripts/lib/virtual_machine.rb`) builds a VM
definition from a parameter hash, or reloads one from the Xen config file it
wrote. It resolves the VM's address against the configured networks and its
resource package against the package catalog. It also builds the strings the
provisioning scripts hand to the shell: the `debootstrap` command, the two
`dd` commands and the kickstart-builder URL. It writes the two kinds of Xen
config file: the one for a native pygrub boot, and the one that boots a
remote installer. Finally it picks the post-debootstrap step list for the
VM's release. The kickstart builder (`kickstart/kickstartbuilder.php`) is the
web script that URL points at. It answers with a Red Hat kickstart file built
from the query string.

Modules, one per concern of the source:

- `Strings`: Ruby's and PHP's string operations as the source uses them
  (`split`, `strip`, `gsub` of characters, `gets`, `to_i`, `to_s`).
- `Host`: the host configuration loaded from YAML (networks, packages,
  nameservers, path roots, servers), and `Option`, `Result` and the errors
  the source raises.
- `Network`: `network_settings` and `random_mac`.
- `Packages`: `from_package` and its wrappers.
- `Passwords`: `random_pw`.
- `Machine`: the parameter hash, `Hash#merge`, and `initialize`.
- `Commands`: `distro_string`, `version_alias`, `debootstrap`,
  `dd_img_file`, `dd_swap_img` and `kickstart_builder_url`.
- `XenConfig`: `create_config`, `create_config_for_ks` and
  `load_from_conf`, with the whole-file round trip between them.
- `Bootstrap`: the five `*_post_debootstrap` step lists and
  `post_debootstrap_commands`.
- `Kickstart`: the PHP kickstart builder.

No method of `VirtualMachine` reassigns an instance variable after
`initialize`, so the VM is the immutable datatype `Machine.Vm` and
construction is the function `Machine.Instance`. Where the source loops
(scanning networks, scanning the catalog, drawing password characters,
reading config lines and their tokens), the model has a `method` with a
`while` loop. Each such method is proved equal to the function that
specifies it, and the properties are proved as lemmas about that function.
Randomness (`rand`) is an input: a `Machine.Entropy` value that carries the
three MAC octets and the twelve password draws. `crypt` in the PHP script is
an uninterpreted function parameter. The host configuration is the
`Host.Config` value that the YAML file would produce.

Behaviour of the code worth knowing:

- An explicit `params[:storage]` overrides only the storage size; memory and
  swap still come from the package (`virtual_machine.rb:48-52`).
- A reloaded file does not always classify exactly one disk token as swap.
  The inline pattern `/^.*-swap.img$/` also matches the default image path of
  a VM whose name ends in `-swap` (`XenConfig.DefaultImagePath`).
- Decoding does not ignore every malformed line. A `name` or `maxmem` line
  with fewer than three words raises, because `split[2]` is nil.
  `XenConfig.MemlessConfigFails` shows that `create_config` writes such a
  line for every VM without a package.
- The kickstart builder's header comment (`kickstartbuilder.php:14`) lists a
  `hostname` GET variable, but the script never reads it. The hostname comes
  from `name` (line 23), and the URL passes `name.DOMAIN`.
- `kickstart_builder_url` interpolates its values without escaping them.
  PHP then `urldecode`s them, so a root password `a+b` reaches the script as
  `a b` (`Kickstart.UrlDecodeChanges`). `Commands.BuilderUrlRequest` states
  what the script reads for every value without '&' or '#'.

Behaviour of the source that the proofs make visible:

- `maxmem` is read back into `params[:mem]`, but `initialize` never uses it.
  A reloaded VM takes its memory from its package again
  (`XenConfig.ReloadedVm`).
- A VM without a package writes `# VM package = `, which reads back as the
  package `"="`.
- A bridged VM's vif line carries no address, so a reloaded bridged VM has
  no network.

## Model

| member | source | states |
|---|---|---|
| Machine.MergeLaws | vmscripts/lib/virtual_machine.rb:139 | merging an empty hash changes nothing on either side; merge is associative; merging the same hash twice is merging it once |
| Machine.Initialize | vmscripts/lib/virtual_machine.rb:41-71 | the loop-calling construction returns exactly `Instance`: the VM or the error raised by the network, package or name lookups |
| Machine.InstanceSucceeds | vmscripts/lib/virtual_machine.rb:41-71 | construction succeeds iff the address (if any) resolves, the package (if any) has mem and swap and, unless storage is given, storage, and a name is given |
| Machine.InstanceSizes | vmscripts/lib/virtual_machine.rb:48-52 | mem and swap come from the package, and storage from `params[:storage].to_i` or else the package; all three are nil without a package |
| Machine.InstancePaths | vmscripts/lib/virtual_machine.rb:54-67 | name and ha as given (ha false unless true); image and swap paths default under the HA or the local images root; mount point `/mnt/name`; config file under the Xen config dir |
| Machine.InstanceNetwork | vmscripts/lib/virtual_machine.rb:47-53 | the network is nil without an address and otherwise the one `network_settings` resolves; the root password is the given one or the random one |
| Machine.InstanceOverrides | vmscripts/lib/virtual_machine.rb:139 | a key the extra hash supplies decides the VM's name, distro, image path and HA flag |
| Network.RandomMac | vmscripts/lib/virtual_machine.rb:349-353 | 17 characters: the Xen prefix `00:16:3e:`, then three two-hex-digit octets separated by ':', whose values are the three draws |
| Network.RandomMacNeverFF | vmscripts/lib/virtual_machine.rb:352 | no synthesised octet is ff, since `rand(0xff)` stops at 254 |
| Network.DottedQuad | vmscripts/lib/virtual_machine.rb:328-329 | for a.b.c.d the network prefix is a.b.c and the last octet is d.to_i |
| Strings.ToIOfIntToString | vmscripts/lib/virtual_machine.rb:51 | `to_i` reads back every integer `to_s` writes |
| Strings.ToISeparated | vmscripts/lib/virtual_machine.rb:51 | for every run of digits followed by text that starts with a digit, a single '_' between them does not change what `to_i` reads; digit groups joined by single '_' read as the digits alone |
| Strings.ToIDoubled | vmscripts/lib/virtual_machine.rb:329 | for every non-empty run of digits, two underscores after it end the number `to_i` reads, whatever follows |
| Strings.ToIPrefixed | vmscripts/lib/virtual_machine.rb:329 | for every run of digits, `to_i` skips a leading `0d` or `0D` and reads the digits |
| Network.NetworkSettings | vmscripts/lib/virtual_machine.rb:326-347 | the scan over NETWORKS returns exactly `NetworkFor`: the outcome of the first network whose prefix matches |
| Network.FirstMatchDecides | vmscripts/lib/virtual_machine.rb:330-343 | at the first matching network: inside its bounds, the address, the given or random MAC, its netmask, gateway and type, and the nameservers; outside them, "outside the range" |
| Network.NoMatchNotFound | vmscripts/lib/virtual_machine.rb:344-346 | when no prefix matches, the address is "not within any defined network" |
| Network.SuccessHasWitness | vmscripts/lib/virtual_machine.rb:330-339 | a success comes from a matching network whose bounds admit the last octet, and carries the address and the nameservers |
| Packages.FromPackage | vmscripts/lib/virtual_machine.rb:363-402 | the catalog scan (with `a` fixed, each of the three wrappers) returns exactly `PackageAttribute`: the last matching entry's attribute, or "No attribute" |
| Packages.LastEntryDecides | vmscripts/lib/virtual_machine.rb:378-402 | the last entry with the name decides, whatever earlier entries of that name hold; a nil attribute there raises |
| Packages.ScannedLast | vmscripts/lib/virtual_machine.rb:382-390 | after the scan the three locals hold the last matching entry's sizes |
| Packages.UnknownPackage | vmscripts/lib/virtual_machine.rb:391-401 | a name no entry carries raises "No attribute" for every attribute |
| Packages.ScannedNone | vmscripts/lib/virtual_machine.rb:382-390 | with no matching entry the three locals stay nil |
| Passwords.PwCharsClean | vmscripts/lib/virtual_machine.rb:406-408 | each pool character is a lower-case letter or a digit from 2 to 9, and none is i, o, l, 0 or 1 |
| Passwords.PwCharsComplete | vmscripts/lib/virtual_machine.rb:406-408 | every lower-case letter and digit other than i, o, l, 0 and 1 is in the pool |
| Passwords.RandomPw | vmscripts/lib/virtual_machine.rb:404-420 | the accumulator loop returns exactly `Password(draws)` |
| Passwords.DrawCharAllowed | vmscripts/lib/virtual_machine.rb:410-417 | one draw yields an allowed character, whether or not it is upcased |
| Passwords.PasswordShape | vmscripts/lib/virtual_machine.rb:404-420 | one character per draw, each allowed: never i, I, o, O, l, L, 0 or 1 |
| Commands.DistroString | vmscripts/lib/virtual_machine.rb:144-146 | succeeds iff distro, version and arch are all set |
| Commands.DistroStringSplit | vmscripts/lib/virtual_machine.rb:144-146 | `split('-')` gives back distro, version and arch when none holds '-' and arch is not empty |
| Commands.VersionAlias | vmscripts/lib/virtual_machine.rb:213-232 | a code name is returned only for a given version, and it is a debian alias for debian and an ubuntu alias for ubuntu |
| Commands.AliasDeterminesRelease | vmscripts/lib/virtual_machine.rb:213-232 | two releases with the same code name have the same distro, and versions equal up to dots |
| Commands.LibcXenIff | vmscripts/lib/virtual_machine.rb:234-251 | `libc6-xen` is included iff the arch is i386, except under debian 5, which never includes it |
| Commands.DebootstrapWords | vmscripts/lib/virtual_machine.rb:234-260 | for a known release the command splits into words, with the arch option, the include option and the code name in place, and the components option exactly for ubuntu |
| Commands.DebootstrapArgsWords | vmscripts/lib/virtual_machine.rb:252-259 | every argument of the command is a nonempty word without white space |
| Commands.DdCommandWords | vmscripts/lib/virtual_machine.rb:148-169 | a dd command splits back into its words when the path is one word |
| Commands.DdSizeWord | vmscripts/lib/virtual_machine.rb:148-169 | the size word of a dd command reads back as the number shown |
| Commands.DdReadBack | vmscripts/lib/virtual_machine.rb:148-169 | read word by word: `of=path`, then `seek=n count=1` when sparse (ha), `count=n` otherwise |
| Commands.DdImgFileSize | vmscripts/lib/virtual_machine.rb:148-158 | the image command writes storage*1024 MB to the image path, sparse exactly when ha |
| Commands.DdSwapImgSize | vmscripts/lib/virtual_machine.rb:160-169 | the swap command writes swap MB to the swap path, sparse exactly when ha |
| Commands.KickstartBuilderUrl | vmscripts/lib/virtual_machine.rb:355-361 | succeeds iff the VM has a network; otherwise the nil `@network` error |
| Commands.BuilderKeys | vmscripts/lib/virtual_machine.rb:358-360 | the nine parameter names hold none of '=', '&', '#', '+' and '%' |
| Commands.SwapValuePlain | vmscripts/lib/virtual_machine.rb:360 | the swap size in the URL holds none of '&', '#', '+' and '%' |
| Commands.BuilderUrlRequest | vmscripts/lib/virtual_machine.rb:355-361 | when no value holds '&' or '#', the kickstart script reads from the URL the `urldecode` of the VM's fully qualified name, distro, version, arch, address, netmask, gateway and root password, and the swap size; when no value holds '+' or '%' either, exactly those values |
| Commands.BuilderGets | vmscripts/lib/virtual_machine.rb:358-360 | each of the nine names occurs once, so `$_GET` finds its value |
| Commands.BuilderNetworkLine | vmscripts/lib/virtual_machine.rb:355-361 | following a URL whose values hold none of '&', '#', '+' and '%', the kickstart network line carries the VM's address, netmask, gateway and fully qualified name |
| Bootstrap.MethodNameParts | vmscripts/lib/virtual_machine.rb:262-265 | the looked-up method name determines distro and version when the candidates hold no '_' |
| Bootstrap.DispatchByRelease | vmscripts/lib/virtual_machine.rb:262-265 | debian 4/5 and ubuntu 804/810/904 select their step lists; every other pair (ubuntu 8.04 included) raises NameError |
| Bootstrap.Debian4WellOrdered | vmscripts/lib/virtual_machine.rb:636-673 | apt sources before the kernel, kernel and grub before the grub menu, keys then apt cleaning last, no step twice, one console |
| Bootstrap.Debian5WellOrdered | vmscripts/lib/virtual_machine.rb:675-712 | the same ordering guarantees for debian 5 |
| Bootstrap.Ubuntu804WellOrdered | vmscripts/lib/virtual_machine.rb:714-749 | the same ordering guarantees for ubuntu 804 |
| Bootstrap.Ubuntu810WellOrdered | vmscripts/lib/virtual_machine.rb:751-786 | the same ordering guarantees for ubuntu 810 |
| Bootstrap.Ubuntu904WellOrdered | vmscripts/lib/virtual_machine.rb:788-821 | the same ordering guarantees for ubuntu 904 |
| Bootstrap.DispatchedWellOrdered | vmscripts/lib/virtual_machine.rb:262-265 | whatever list the dispatch selects keeps every ordering guarantee |
| Bootstrap.CreateDevWhere | vmscripts/lib/virtual_machine.rb:636-821 | debian 4 never creates /dev; debian 5 does so before the apt sources, the ubuntu releases after them |
| Bootstrap.Ubuntu904Bare | vmscripts/lib/virtual_machine.rb:788-821 | ubuntu 904 writes no kernel-img.conf, touches no console file and writes a grub menu without console |
| Bootstrap.GrubConsole | vmscripts/lib/virtual_machine.rb:636-786 | the grub menu gets xvc0 under debian 4 and ubuntu 804, hvc0 under debian 5 and ubuntu 810 |
| XenConfig.Classify | vmscripts/lib/virtual_machine.rb:29-36 | the branch a line takes: a comment branch only when the line starts with its `# VM key =` tag, in the source's `when` order |
| XenConfig.ParseDiskLine | vmscripts/lib/virtual_machine.rb:87-100 | the disk-token loop returns exactly `DiskTokens` |
| XenConfig.ParseVifFields | vmscripts/lib/virtual_machine.rb:106-114 | the comma-field loop returns exactly `VifFields` |
| XenConfig.ParseVifLine | vmscripts/lib/virtual_machine.rb:101-116 | the vif-token loop returns exactly `VifTokens` |
| XenConfig.ParseLine | vmscripts/lib/virtual_machine.rb:82-134 | one turn of the `case` returns exactly `ApplyLine`: the branch the line's pattern selects, on its words |
| XenConfig.ParseConf | vmscripts/lib/virtual_machine.rb:79-136 | the `gets` loop returns exactly `DecodeConf` of the file text |
| XenConfig.LoadFromConf | vmscripts/lib/virtual_machine.rb:73-142 | returns exactly `LoadedVm`: parse, merge the extra params, construct |
| XenConfig.ConfigLines | vmscripts/lib/virtual_machine.rb:291-315 | succeeds iff the VM has a network and distro, version and arch; a missing network raises first |
| XenConfig.KsConfigLines | vmscripts/lib/virtual_machine.rb:267-289 | succeeds iff the VM has a network; otherwise the nil `@network` error |
| XenConfig.ReadName | vmscripts/lib/virtual_machine.rb:83-84 | the written name line reads back as the name |
| XenConfig.ReadMem | vmscripts/lib/virtual_machine.rb:85-86 | the written maxmem line reads back as the decimal memory string |
| XenConfig.MemlessLineFails | vmscripts/lib/virtual_machine.rb:85-86 | `maxmem = ` has no third word and raises |
| XenConfig.ReadIgnored | vmscripts/lib/virtual_machine.rb:82-134 | a written setting no pattern matches (memory, bootloader, kernel, on_*) changes nothing |
| XenConfig.ReadDisk | vmscripts/lib/virtual_machine.rb:87-100 | the disk line reads back as image and swap path, each classified by its name |
| XenConfig.ReadVif | vmscripts/lib/virtual_machine.rb:101-116 | the vif line's fields are applied in order |
| XenConfig.BridgedFields | vmscripts/lib/virtual_machine.rb:299-300 | a bridged vif line reads back as the MAC only |
| XenConfig.RoutedFields | vmscripts/lib/virtual_machine.rb:301-302 | a routed vif line reads back as the MAC and the address |
| XenConfig.ReadDistro | vmscripts/lib/virtual_machine.rb:117-122 | the distro comment reads back as distro, version and arch |
| XenConfig.ReadHa | vmscripts/lib/virtual_machine.rb:123-128 | a `# VM ha = true` or `# VM ha = false` comment sets the flag to that value |
| XenConfig.ReadHaOther | vmscripts/lib/virtual_machine.rb:123-130 | a `# VM ha =` comment whose one-word value is neither `true` nor `false` leaves the parameters, and so the flag, unchanged |
| XenConfig.ReadPackage | vmscripts/lib/virtual_machine.rb:131-133 | the package comment reads back as the package |
| XenConfig.NilPackageReadsAsEquals | vmscripts/lib/virtual_machine.rb:131-133 | an empty package comment reads back as the package "=" |
| XenConfig.DecodeAppend | vmscripts/lib/virtual_machine.rb:80-135 | decoding two runs of lines decodes the second from what the first leaves, or stops at its error |
| XenConfig.ConfigRoundTrip | vmscripts/lib/virtual_machine.rb:73-142 | the file `create_config` writes decodes to the VM's name, memory, paths, MAC (and address, when routed), distro, version, arch, HA flag and package |
| XenConfig.KsConfigRoundTrip | vmscripts/lib/virtual_machine.rb:267-289 | for a VM whose name, memory, paths, MAC and address satisfy `SettingsRereadable` and whose kernel, ramdisk and extra values hold no newline, the `create_config_for_ks` file decodes to name, memory, paths, MAC and (routed) address, with no distro, HA flag or package |
| XenConfig.ReloadedVm | vmscripts/lib/virtual_machine.rb:73-142 | reloading a written file constructs the written name, HA flag, release, paths and package; network only when routed; memory from the package |
| XenConfig.ExtraOverrides | vmscripts/lib/virtual_machine.rb:137-141 | reloading with extra params constructs from the merge, and the extra keys decide their fields |
| XenConfig.MemlessConfigFails | vmscripts/lib/virtual_machine.rb:85-86 | a VM without memory is written with `maxmem = `, and its file cannot be reloaded |
| XenConfig.IgnoredLine | vmscripts/lib/virtual_machine.rb:82-134 | a line no pattern matches can be dropped from any file without changing its decoding |
| XenConfig.DefaultSwapPath | vmscripts/lib/virtual_machine.rb:61-65 | the default swap path always reads back as swap |
| XenConfig.DefaultImagePath | vmscripts/lib/virtual_machine.rb:56-60 | the default image path reads back as swap iff the VM's name ends in `-swap` |
| Kickstart.Get | kickstart/kickstartbuilder.php:17-26 | a key not in the query reads as "" |
| Kickstart.GetLast | kickstart/kickstartbuilder.php:17-26 | a repeated key keeps its last value |
| Kickstart.SplitPair | kickstart/kickstartbuilder.php:17-26 | a parsed key never holds '=' |
| Kickstart.UrlDecodePlain | kickstart/kickstartbuilder.php:17-26 | `urldecode` leaves text without '+' and '%' unchanged |
| Kickstart.UrlDecodeChanges | kickstart/kickstartbuilder.php:17-26 | `urldecode` reads `a+b` as `a b` and `%41` as `A` |
| Kickstart.ParseEncodeQuery | kickstart/kickstartbuilder.php:17-26 | parsing an encoded query gives its pairs back, both halves decoded, when no key holds '=' or '&' and no value '&'; exactly its pairs when no key or value holds '+' or '%' |
| Kickstart.LooselyFourNumeral | kickstart/kickstartbuilder.php:29 | for every decimal numeral (sign, digits, optional fraction) with white space around it, `== '4'` holds iff the numeral is not negative and its value is 4 |
| Kickstart.LooselyFourShape | kickstart/kickstartbuilder.php:29 | every string with `== '4'` is such a numeral, with white space around it, whose value is 4 |
| Kickstart.FracBounds | kickstart/kickstartbuilder.php:29 | a decimal fraction lies in [0, 1) and is 0 iff its digits are all zeros |
| Kickstart.LooselyFourExamples | kickstart/kickstartbuilder.php:29 | "4" and "4.0" pass PHP's loose `== '4'` |
| Kickstart.NotLooselyFour | kickstart/kickstartbuilder.php:29 | "5" and "4a" do not |
| Kickstart.KickstartFileLines | kickstart/kickstartbuilder.php:44-78 | splitting the echoed text at newlines gives back the file's lines when no interpolated value spans lines |
| Kickstart.LangSupportIff | kickstart/kickstartbuilder.php:28-34 | the langsupport line is present iff the distro is rhel or centos and the version is loosely 4, and it comes right after the lang line |
| Kickstart.KeySkipIff | kickstart/kickstartbuilder.php:35-50 | `key --skip` is present iff the distro is rhel, right after the network line |
| Kickstart.NetworkAndUrl | kickstart/kickstartbuilder.php:19-23 | the network line's words carry ip, nmask, gway and name in their places; the install URL's path splits back into distro, ver and arch |
| Kickstart.SwapAndRootpw | kickstart/kickstartbuilder.php:25-26 | the swap partition on xvdb has the requested size; the root password appears only crypted with `$1$vfsalt` |
| Kickstart.RootpwOnlyCrypted | kickstart/kickstartbuilder.php:25 | two requests that agree elsewhere and whose passwords crypt alike produce the same file |

## Left out

- File and process I/O: opening and writing the config file, `cat`,
  mounting, loop devices, `is_running`, and the shell commands each
  post-debootstrap step runs. The model builds the strings and step lists
  and stops there.
- `puts` under `@verbose`: it has no effect on the model's values.
- `vmscripts/lib/vm_mailer.rb`, a mail wrapper with no logic of its own, is
  not part of this model.
- Loading the YAML host configuration: it becomes the `Host.Config` input.
- `rand`: it becomes the `Machine.Entropy` input.
- PHP's `crypt`, `header` and `echo`. `crypt` is an uninterpreted parameter.
- Kickstart.ParseQuery: PHP also drops leading spaces from a key, rewrites
  '.' and ' ' inside a key to '_', and reads '[' as an array index, so
  ` name=x` sets `name` and `name[]=x` makes it an array. The model keeps
  every key as written. For a query holding such keys, what the script reads
  is not characterised.
- BuilderUrlRequest: a value holding '&' splits the query and one holding
  '#' ends it, so for such values what the script reads is not characterised.
- BuilderNetworkLine: stated only for values that `urldecode` leaves alone
  and that are non-empty and hold no white space.
- Machine.Merge: an extra_params key given with value nil counts as absent,
  whereas Ruby's merge would store the nil.
- XenConfig.KsConfigRoundTrip: proved only under `SettingsRereadable` (the
  name, path, MAC and address clauses listed for `XenConfig.ConfigRoundTrip`
  below) and for kernel, ramdisk and extra values without a newline. The
  kernel and ramdisk paths interpolate `cfg.ksKernelDir`, the distro,
  version and arch, and the extra line interpolates the netmask, gateway,
  nameserver and builder URL. A newline in any of them splits the written
  line, and the decoder reads the rest as a line of its own. A distro of
  `x\nname = y`, for example, changes the name read back.
- Machine.Params: `ha` is a boolean or absent. In the source,
  `@ha = params[:ha] || false` (`virtual_machine.rb:55`) keeps any truthy
  value, such as a string. Such a value selects the HA paths and is written
  as `# VM ha = <value>`. The model cannot represent it.
- Partially written files: when `create_config` raises on a nil `@network`
  or `distro_string`, the source has already written the first lines, but
  the model returns only the error.
- The constant `SWAP_PATH_REGEX`: the source never uses it, and the inline
  `/^.*-swap.img$/` is what the model follows. Its unescaped `.` matches any
  character before `img`.
- Strings.Strip: Ruby's `strip` also removes NUL characters; the model
  removes only white space (space, tab, newline, vertical tab, form feed and
  carriage return).
- Kickstart.LooselyFour: PHP's numeric strings with an exponent (`"4e0"`)
  are not modelled as numeric. PHP compares numeric strings as
  floating-point numbers, so `"4.00000000000000001"` equals `'4'` in PHP;
  the model compares exact decimal values and does not. Trailing white space
  is allowed, as PHP 8 allows it; PHP 7 rejects it.
- Host.PackageDef: package sizes are whole numbers. A fractional YAML size
  such as a storage of 1.5 cannot be written, so the truncation in
  `(@storage * 1024).to_i` (`virtual_machine.rb:150`) is not modelled.
- XenConfig.ConfigRoundTrip: proved only for VMs that satisfy `Rereadable`.
  A file with other values reads back through the same decoder, but its
  read-back value is not characterised. `Rereadable` asks for:
  - a network and a memory size. Without them `create_config` raises on
    `@network`, or writes a `maxmem` line that cannot be read back
    (`XenConfig.MemlessConfigFails`);
  - a name without white space or quotes;
  - image and swap paths without white space, '[', ']', quotes (`'`, `"`),
    ',' or `tap:aio:`, and an image path other than `disk` and `=`. The
    decoder deletes brackets and quotes from each disk token
    (`virtual_machine.rb:89`), cuts it at the first ',' and removes
    `tap:aio:`, so a path holding any of them comes back different;
  - an image path that is not read as swap and a swap path that is. The
    default paths meet this unless the name ends in `-swap`
    (`XenConfig.DefaultImagePath`, `XenConfig.DefaultSwapPath`);
  - a MAC and an address without white space, '[', ']', quotes (`'`, `"`)
    or ','. The decoder deletes brackets and quotes from each vif token
    (`virtual_machine.rb:103`) and splits it at ',';
  - distro, version and arch all set, without white space or '-', and a
    non-empty arch. `split('-')` needs this to give them back
    (`Commands.DistroStringSplit`);
  - no package, or a non-empty package without white space.

/** Valet's DnsMasq: installs dnsmasq, takes it away from NetworkManager,
    and points the primary configuration at a Valet-owned fragment that
    resolves every host of the domain to 127.0.0.1.

    As for Site, each method of class DnsMasq is tied to an "After" function
    on a DnsState value, and the lemmas below are stated over those. */
module Dns {
  import opened Strings
  import opened FileSystem
  import opened CommandLine

  /** The state a DnsMasq acts on: the filesystem and the commands issued. */
  datatype DnsState = DnsState(fs: Tree, log: seq<Command>)

  /** The primary dnsmasq configuration. */
  function ConfigPath(): string
  {
    "/etc/dnsmasq.conf"
  }

  /** customConfigPath(): Valet's fragment, an entry of VALET_HOME_PATH; it
      is the primary configuration itself only for a home of /etc. */
  function CustomConfigPath(home: string): (r: string)
    ensures IsEntryPath(home, r)
    ensures r == ConfigPath() <==> home == "/etc"
  {
    var r := home + "/dnsmasq.conf";
    assert r[..|home| + 1] == home + "/" && r[|home| + 1..] == "dnsmasq.conf";
    assert r == ConfigPath() ==> |home| == 4 && home == r[..4];
    r
  }

  /** The line appended to the primary configuration to import p. */
  function ImportLine(p: string): string
  {
    "\n" + "conf-file=" + p + "\n"
  }

  /** The only line of the fragment: every host of domain is 127.0.0.1. */
  function DomainLine(domain: string): string
  {
    "address=/." + domain + "/127.0.0.1" + "\n"
  }

  /** PHP truthiness of a command's output: only "" and "0" are false. */
  predicate Truthy(output: string)
  {
    output != "" && output != "0"
  }

  // ----- State transitions -----

  /** copyExampleConfig(): the primary configuration is seeded from the
      example only when it does not exist. */
  function AfterCopyExampleConfig(fs: Tree, example: string): Tree
  {
    if Exists(fs, ConfigPath()) then fs else Copy(fs, example, ConfigPath())
  }

  /** customConfigIsBeingImported(p): p occurs anywhere in the primary
      configuration. */
  predicate IsImported(fs: Tree, p: string)
  {
    Contains(Get(fs, ConfigPath()), p)
  }

  /** appendCustomConfigImport(p). */
  function AfterAppendImport(fs: Tree, p: string): Tree
  {
    if IsImported(fs, p) then fs else Append(fs, ConfigPath(), ImportLine(p))
  }

  /** createCustomConfigFile(domain): seed, import, then (over)write the
      fragment. */
  function AfterCreateCustomConfig(fs: Tree, home: string, example: string, domain: string): Tree
  {
    var custom := CustomConfigPath(home);
    Put(AfterAppendImport(AfterCopyExampleConfig(fs, example), custom), custom, DomainLine(domain))
  }

  /** The commands manageDnsmasqManually() issues, given what the grep for
      NetworkManager's dns=dnsmasq printed. */
  function ManualCommands(grepOutput: string): seq<Command>
  {
    [Run(FindNetworkManagerDns)]
    + if Truthy(grepOutput) then
        [Run(DisableNetworkManagerDns), Run(StopNetworkManager), Run(KillDnsmasq),
         Run(StartNetworkManager), Run(RestartDnsmasq)]
      else []
  }

  /** The exact command lines of manageDnsmasqManually: the grep of
      NetworkManager's dns setting, then, when it matched, the sed that
      comments the setting out, the NetworkManager stop, the dnsmasq kill,
      the NetworkManager start and the dnsmasq restart. */
  lemma ManualCommandsText(grepOutput: string)
    ensures ShellLines(ManualCommands(grepOutput)) ==
      ["grep '^dns=dnsmasq' /etc/NetworkManager/NetworkManager.conf"]
      + if Truthy(grepOutput) then
          ["sudo sed -i 's/^dns=/#dns=/g' /etc/NetworkManager/NetworkManager.conf",
           "sudo service network-manager stop",
           "sudo pkill dnsmasq",
           "sudo service network-manager start",
           "sudo service dnsmasq restart"]
        else []
  {
    var tail := [Run(DisableNetworkManagerDns), Run(StopNetworkManager), Run(KillDnsmasq),
                 Run(StartNetworkManager), Run(RestartDnsmasq)];
    ShellLinesConcat([Run(FindNetworkManagerDns)], if Truthy(grepOutput) then tail else []);
    assert ShellLines([Run(FindNetworkManagerDns)]) == [Line(FindNetworkManagerDns)];
    if Truthy(grepOutput) {
      HandOverText();
    }
  }

  /** The text of the five commands that hand DNS over from NetworkManager to
      dnsmasq. */
  lemma HandOverText()
    ensures ShellLines([Run(DisableNetworkManagerDns), Run(StopNetworkManager), Run(KillDnsmasq),
                        Run(StartNetworkManager), Run(RestartDnsmasq)])
         == ["sudo sed -i 's/^dns=/#dns=/g' /etc/NetworkManager/NetworkManager.conf",
             "sudo service network-manager stop",
             "sudo pkill dnsmasq",
             "sudo service network-manager start",
             "sudo service dnsmasq restart"]
  {
    var tail := [Run(DisableNetworkManagerDns), Run(StopNetworkManager), Run(KillDnsmasq),
                 Run(StartNetworkManager), Run(RestartDnsmasq)];
    ShellLinesConcat([tail[0]], tail[1..]);
    ShellLinesConcat([tail[1]], tail[2..]);
    ShellLinesConcat([tail[2]], tail[3..]);
    ShellLinesConcat([tail[3]], tail[4..]);
  }

  /** The commands install() issues. */
  function InstallSequence(grepOutput: string): seq<Command>
  {
    [EnsureInstalled("dnsmasq")] + ManualCommands(grepOutput) + [RestartService("dnsmasq")]
  }

  function AfterInstall(st: DnsState, home: string, example: string, domain: string, grepOutput: string): DnsState
  {
    DnsState(AfterCreateCustomConfig(st.fs, home, example, domain), st.log + InstallSequence(grepOutput))
  }

  class DnsMasq {
    /** VALET_HOME_PATH */
    const home: string
    /** What the constructor reads from the dnsmasq.conf stub; it is later
        used as the path the seed is copied from. */
    const exampleConfigPath: string
    var fs: Tree
    var log: seq<Command>

    ghost function State(): DnsState
      reads this
    {
      DnsState(fs, log)
    }

    /** The example is whatever the stub file holds. */
    constructor (home: string, stubPath: string, fs: Tree)
      ensures this.home == home && exampleConfigPath == Get(fs, stubPath)
      ensures State() == DnsState(fs, [])
    {
      this.home := home;
      this.exampleConfigPath := Get(fs, stubPath);
      this.fs := fs;
      this.log := [];
    }

    /** install(): the domain defaults to "dev". */
    method Install(grepOutput: string, domain: string := "dev")
      modifies this
      ensures State() == AfterInstall(old(State()), home, exampleConfigPath, domain, grepOutput)
    {
      log := log + [EnsureInstalled("dnsmasq")];
      ManageDnsmasqManually(grepOutput);
      CreateCustomConfigFile(domain);
      log := log + [RestartService("dnsmasq")];
    }

    method CreateCustomConfigFile(domain: string)
      modifies this
      ensures fs == AfterCreateCustomConfig(old(fs), home, exampleConfigPath, domain)
      ensures log == old(log)
    {
      var customConfigPath := CustomConfigPath(home);
      CopyExampleConfig();
      AppendCustomConfigImport(customConfigPath);
      fs := Put(fs, customConfigPath, DomainLine(domain));
    }

    /** The grep's output is a parameter: it is what the shell printed. */
    method ManageDnsmasqManually(grepOutput: string)
      modifies this
      ensures fs == old(fs) && log == old(log) + ManualCommands(grepOutput)
    {
      log := log + [Run(FindNetworkManagerDns)];
      if Truthy(grepOutput) {
        log := log + [Run(DisableNetworkManagerDns)];
        log := log + [Run(StopNetworkManager)];
        log := log + [Run(KillDnsmasq)];
        log := log + [Run(StartNetworkManager)];
        log := log + [Run(RestartDnsmasq)];
      }
    }

    method CopyExampleConfig()
      modifies this
      ensures fs == AfterCopyExampleConfig(old(fs), exampleConfigPath) && log == old(log)
    {
      if !Exists(fs, ConfigPath()) {
        fs := Copy(fs, exampleConfigPath, ConfigPath());
      }
    }

    method AppendCustomConfigImport(customConfigPath: string)
      modifies this
      ensures fs == AfterAppendImport(old(fs), customConfigPath) && log == old(log)
    {
      var imported := CustomConfigIsBeingImported(customConfigPath);
      if !imported {
        fs := Append(fs, ConfigPath(), ImportLine(customConfigPath));
      }
    }

    /** strpos(...) !== false is the substring test. */
    method CustomConfigIsBeingImported(customConfigPath: string) returns (b: bool)
      ensures b <==> IsSubstring(customConfigPath, Get(fs, ConfigPath()))
      ensures b == IsImported(fs, customConfigPath)
    {
      b := Contains(Get(fs, ConfigPath()), customConfigPath);
    }

    /** updateDomain(): the old domain is ignored; it installs again for the
        new one. */
    method UpdateDomain(oldDomain: string, newDomain: string, grepOutput: string)
      modifies this
      ensures State() == AfterInstall(old(State()), home, exampleConfigPath, newDomain, grepOutput)
    {
      Install(grepOutput, newDomain);
    }
  }

  // ----- Properties -----

  /** The seed is written only when the primary configuration is missing,
      only there, and only from a regular file at the example path. */
  lemma SeedOnlyWhenMissing(fs: Tree, example: string)
    ensures var r := AfterCopyExampleConfig(fs, example);
      && (Exists(fs, ConfigPath()) ==> r == fs)
      && (forall p :: p != ConfigPath() ==> (p in r <==> p in fs) && (p in fs ==> r[p] == fs[p]))
      && (!Exists(fs, ConfigPath()) ==>
            (IsFile(fs, example) ==> ConfigPath() in r && r[ConfigPath()] == fs[example])
            && (!IsFile(fs, example) ==> r == fs))
  {
  }

  /** After the import is appended, the fragment is imported. */
  lemma ImportedAfterAppend(fs: Tree, p: string)
    ensures IsImported(AfterAppendImport(fs, p), p)
  {
    if !IsImported(fs, p) {
      ImportLineNamesPath(Get(fs, ConfigPath()), p);
    }
  }

  /** Text followed by the import line of p mentions p. */
  lemma ImportLineNamesPath(c: string, p: string)
    ensures Contains(c + ImportLine(p), p)
  {
    var pre := c + "\nconf-file=";
    var s := pre + p + "\n";
    assert c + ImportLine(p) == s;
    assert s[|pre|..|pre| + |p|] == p;
    ContainsAt(s, p, |pre|);
  }

  /** appendCustomConfigImport adds the import line at the end of the
      primary configuration when the fragment is not mentioned, and
      otherwise changes nothing; no other path changes either way. */
  lemma AppendImportEffect(fs: Tree, p: string)
    ensures var r := AfterAppendImport(fs, p);
      && (IsImported(fs, p) ==> r == fs)
      && (!IsImported(fs, p) ==> Get(r, ConfigPath()) == Get(fs, ConfigPath()) + ImportLine(p) && IsFile(r, ConfigPath()))
      && (forall q :: q != ConfigPath() ==> (q in r <==> q in fs) && (q in fs ==> r[q] == fs[q]))
      && IsImported(r, p)
  {
    ImportedAfterAppend(fs, p);
  }

  /** Appending the import twice is appending it once. */
  lemma AppendImportIdempotent(fs: Tree, p: string)
    ensures AfterAppendImport(AfterAppendImport(fs, p), p) == AfterAppendImport(fs, p)
  {
    ImportedAfterAppend(fs, p);
  }

  /** createCustomConfigFile leaves the fragment holding exactly the domain
      line, imported by the primary configuration, which keeps its seeded
      text followed by at most one new import line; when the fragment path
      is the primary configuration itself, the domain line replaces it. */
  lemma CreateCustomConfigEffect(fs: Tree, home: string, example: string, domain: string)
    ensures var r, custom := AfterCreateCustomConfig(fs, home, example, domain), CustomConfigPath(home);
      var seeded := AfterCopyExampleConfig(fs, example);
      && Get(r, custom) == DomainLine(domain)
      && (home != "/etc" ==>
            && IsImported(r, custom)
            && Get(r, ConfigPath()) == Get(seeded, ConfigPath()) + (if IsImported(seeded, custom) then "" else ImportLine(custom)))
      && (home == "/etc" ==> Get(r, ConfigPath()) == DomainLine(domain))
  {
    var custom, seeded := CustomConfigPath(home), AfterCopyExampleConfig(fs, example);
    var appended := AfterAppendImport(seeded, custom);
    var r := AfterCreateCustomConfig(fs, home, example, domain);
    assert r == appended[custom := File(DomainLine(domain))];
    if home != "/etc" {
      assert custom != ConfigPath();
      assert Get(r, ConfigPath()) == Get(appended, ConfigPath());
      assert IsImported(appended, custom) by {
        ImportedAfterAppend(seeded, custom);
      }
    } else {
      assert custom == ConfigPath();
    }
  }

  /** Creating the fragment for one domain and then another leaves only the
      second domain's line. */
  lemma FragmentOverwritten(fs: Tree, home: string, example: string, first: string, second: string)
    ensures var r := AfterCreateCustomConfig(AfterCreateCustomConfig(fs, home, example, first), home, example, second);
      Get(r, CustomConfigPath(home)) == DomainLine(second)
  {
  }

  /** A second createCustomConfigFile for the same domain changes nothing. */
  lemma CreateCustomConfigIdempotent(fs: Tree, home: string, example: string, domain: string)
    ensures var once := AfterCreateCustomConfig(fs, home, example, domain);
      AfterCreateCustomConfig(once, home, example, domain) == once
  {
    var custom := CustomConfigPath(home);
    var once := AfterCreateCustomConfig(fs, home, example, domain);
    var seeded := AfterCopyExampleConfig(fs, example);
    ImportedAfterAppend(seeded, custom);
    if home != "/etc" {
      assert Exists(once, ConfigPath());
      assert IsImported(once, custom);
    } else {
      assert Exists(once, ConfigPath());
    }
  }

  /** install() twice leaves the filesystem install() once leaves. */
  lemma InstallTwiceIsInstallOnce(st: DnsState, home: string, example: string, domain: string, grepOutput: string)
    ensures var once := AfterInstall(st, home, example, domain, grepOutput);
      AfterInstall(once, home, example, domain, grepOutput).fs == once.fs
  {
    CreateCustomConfigIdempotent(st.fs, home, example, domain);
  }

  /** install() issues the package install first, one grep for
      NetworkManager's dnsmasq setting, the five NetworkManager commands
      exactly when that grep printed something truthy, and the dnsmasq
      restart last. */
  lemma InstallCommands(grepOutput: string)
    ensures var issued := InstallSequence(grepOutput);
      && |issued| == (if Truthy(grepOutput) then 8 else 3)
      && issued[0] == EnsureInstalled("dnsmasq")
      && issued[1] == Run(FindNetworkManagerDns)
      && issued[|issued| - 1] == RestartService("dnsmasq")
      && (Run(DisableNetworkManagerDns) in issued <==> Truthy(grepOutput))
      && (Truthy(grepOutput) ==>
            issued[2..7] == [Run(DisableNetworkManagerDns), Run(StopNetworkManager), Run(KillDnsmasq),
                             Run(StartNetworkManager), Run(RestartDnsmasq)])
  {
    var issued := InstallSequence(grepOutput);
    if Truthy(grepOutput) {
      assert issued == [EnsureInstalled("dnsmasq"), Run(FindNetworkManagerDns),
                        Run(DisableNetworkManagerDns), Run(StopNetworkManager), Run(KillDnsmasq),
                        Run(StartNetworkManager), Run(RestartDnsmasq), RestartService("dnsmasq")];
    } else {
      assert issued == [EnsureInstalled("dnsmasq"), Run(FindNetworkManagerDns), RestartService("dnsmasq")];
    }
  }
}

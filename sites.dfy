/** Valet's Site: the Sites link table, the per-host TLS material under
    Certificates, the per-host Caddy fragments and the trust store.

    The pure part (paths, the name stripping of secured(), the Caddyfile
    template substitution, the domain rename) is a set of functions. Every
    state-changing operation is a method of class Site whose new state is
    given by an "After" function on a World value; the properties of those
    functions are proved in module SiteProperties. */
module Sites {
  import opened Strings
  import opened FileSystem
  import opened CommandLine

  /** What a Site reads and never changes: VALET_HOME_PATH, the contents of
      the SecureCaddyfile stub, and the configured FPM address. */
  datatype Env = Env(home: string, secureCaddyStub: string, fpmAddress: string)

  /** The state a Site acts on: the filesystem, the OS trust store as a
      multiset of certificate common names, and the commands issued. */
  datatype World = World(fs: Tree, trusted: multiset<string>, log: seq<Command>)

  // ----- Paths -----

  /** sitesPath(): the directory of site links, directly under the Valet
      home. */
  function SitesPath(home: string): (r: string)
    ensures IsEntryPath(home, r)
  {
    var r := home + "/Sites";
    assert r[..|home| + 1] == home + "/" && r[|home| + 1..] == "Sites";
    r
  }

  /** certificatesPath(): the TLS directory, directly under the Valet home
      and apart from the Sites directory. */
  function CertificatesPath(home: string): (r: string)
    ensures IsEntryPath(home, r)
    ensures r != SitesPath(home)
  {
    var r := home + "/Certificates";
    assert r[..|home| + 1] == home + "/" && r[|home| + 1..] == "Certificates";
    assert |r| != |SitesPath(home)|;
    r
  }

  function CaddyPath(home: string, url: string): string
  {
    home + "/Caddy/" + url
  }

  function KeyPath(home: string, url: string): string
  {
    CertificatesPath(home) + "/" + url + ".key"
  }

  function CsrPath(home: string, url: string): string
  {
    CertificatesPath(home) + "/" + url + ".csr"
  }

  function CrtPath(home: string, url: string): string
  {
    CertificatesPath(home) + "/" + url + ".crt"
  }

  /** The guard of unsecure(): something is stored at the host's .crt path.
      Unlike Exists, a .crt that is a dangling link counts as present. */
  predicate HasCertificate(fs: Tree, home: string, url: string)
  {
    CrtPath(home, url) in fs
  }

  /** Everything secure(url) creates and unsecure(url) removes. */
  function Artifacts(home: string, url: string): set<string>
  {
    {CaddyPath(home, url), KeyPath(home, url), CsrPath(home, url), CrtPath(home, url)}
  }

  /** The host name an artifact path belongs to, read back from the path.
      The character after "<home>/C" tells "/Caddy/" ('a') from
      "/Certificates/" ('e'); a Caddy fragment's host follows the 7
      characters of "/Caddy/", a certificate file's host follows the 14
      characters of "/Certificates/" and precedes its 4-character
      extension. */
  function OwnerOf(home: string, p: string): string
  {
    var caddyDir, certificatesDir, extension := |"/Caddy/"|, |"/Certificates/"|, 4;
    if |p| > |home| + 2 && p[|home| + 2] == 'a' then
      (if |p| >= |home| + caddyDir then p[|home| + caddyDir..] else "")
    else if |p| >= |home| + certificatesDir + extension then p[|home| + certificatesDir..|p| - extension]
    else ""
  }

  lemma Framed(a: string, u: string, b: string)
    ensures |a + u + b| == |a| + |u| + |b|
    ensures (a + u + b)[|a|..|a| + |u|] == u
    ensures (a + u + b)[|a|..] == u + b
  {
  }

  lemma CaddyPathOwner(home: string, url: string)
    ensures OwnerOf(home, CaddyPath(home, url)) == url
  {
    var p := CaddyPath(home, url);
    Framed(home + "/Caddy/", url, "");
    assert p == home + "/Caddy/" + url + "";
    assert p[|home| + 2] == 'a';
  }

  lemma CertificatePathOwner(home: string, url: string, ext: string)
    requires |ext| == 4
    ensures OwnerOf(home, CertificatesPath(home) + "/" + url + ext) == url
  {
    var c := home + "/Certificates/";
    var p := CertificatesPath(home) + "/" + url + ext;
    assert p == c + url + ext;
    Framed(c, url, ext);
    assert p[|home| + 2] == c[|home| + 2] == 'e';
  }

  /** Each artifact path names its host, so no path is an artifact of two
      hosts; and the four artifacts of one host are four different paths. */
  lemma ArtifactOwner(home: string, url: string)
    ensures forall p :: p in Artifacts(home, url) ==> OwnerOf(home, p) == url
    ensures CaddyPath(home, url) !in {KeyPath(home, url), CsrPath(home, url), CrtPath(home, url)}
    ensures KeyPath(home, url) != CsrPath(home, url) && CsrPath(home, url) != CrtPath(home, url) && CrtPath(home, url) != KeyPath(home, url)
  {
    CaddyPathOwner(home, url);
    CertificatePathOwner(home, url, ".key");
    CertificatePathOwner(home, url, ".csr");
    CertificatePathOwner(home, url, ".crt");
    var c := CertificatesPath(home) + "/" + url;
    assert (c + ".key")[|c| + 3] == 'y' && (c + ".csr")[|c| + 3] == 'r' && (c + ".crt")[|c| + 3] == 't';
    assert CaddyPath(home, url)[|home| + 2] == 'a';
    assert (c + ".key")[|home| + 2] == 'e' && (c + ".csr")[|home| + 2] == 'e' && (c + ".crt")[|home| + 2] == 'e';
  }

  /** The four artifacts of a host are four different paths, none of them
      the Certificates directory. */
  lemma ArtifactsDistinct(home: string, url: string)
    ensures CaddyPath(home, url) != KeyPath(home, url)
    ensures CaddyPath(home, url) != CsrPath(home, url)
    ensures CaddyPath(home, url) != CrtPath(home, url)
    ensures KeyPath(home, url) != CsrPath(home, url)
    ensures CsrPath(home, url) != CrtPath(home, url)
    ensures CrtPath(home, url) != KeyPath(home, url)
    ensures CertificatesPath(home) !in Artifacts(home, url)
  {
    ArtifactOwner(home, url);
    NotAnArtifact(home, url, "");
  }

  /** Artifacts of different hosts never share a path. */
  lemma ArtifactsDisjoint(home: string, u: string, v: string)
    requires u != v
    ensures Artifacts(home, u) !! Artifacts(home, v)
  {
    ArtifactOwner(home, u);
    ArtifactOwner(home, v);
  }

  /** The Certificates and Sites directories and the Sites entries are
      never artifacts. */
  lemma NotAnArtifact(home: string, url: string, name: string)
    ensures CertificatesPath(home) !in Artifacts(home, url)
    ensures SitesPath(home) !in Artifacts(home, url)
    ensures SitesPath(home) + "/" + name !in Artifacts(home, url)
  {
    var c := CertificatesPath(home);
    var s := SitesPath(home) + "/" + name;
    assert c[|home| + 2] == 'e' && |c| == |home| + 13;
    assert SitesPath(home)[|home| + 1] == 'S';
    assert s[|home| + 1] == 'S';
    assert CaddyPath(home, url)[|home| + 2] == 'a';
    assert CaddyPath(home, url)[|home| + 1] == 'C';
    assert KeyPath(home, url)[|home| + 1] == 'C';
    assert CsrPath(home, url)[|home| + 1] == 'C';
    assert CrtPath(home, url)[|home| + 1] == 'C';
  }

  // ----- secured() -----

  /** str_replace(['.key', '.csr', '.crt'], '', name): each needle is
      removed everywhere in the name, one after the other. */
  function StripExtensions(name: string): (r: string)
    ensures |r| <= |name|
    ensures !IsSubstring(".key", name) && !IsSubstring(".csr", name) && !IsSubstring(".crt", name) ==> r == name
  {
    ReplaceAbsent(name, ".key", "");
    ReplaceAbsent(name, ".csr", "");
    ReplaceAbsent(name, ".crt", "");
    Replace(Replace(Replace(name, ".key", ""), ".csr", ""), ".crt", "")
  }

  /** secured() on a given directory listing: the stripped names, duplicates
      dropped, first occurrences kept in listing order. */
  function SecuredNames(listing: seq<string>): (r: seq<string>)
    ensures NoDups(r)
    ensures forall u :: u in r <==> exists i :: 0 <= i < |listing| && StripExtensions(listing[i]) == u
  {
    var stripped := StrippedAll(listing);
    assert forall i :: 0 <= i < |listing| ==> stripped[i] == StripExtensions(listing[i]);
    Dedup(stripped)
  }

  /** The map step of secured(): every name of the listing stripped. */
  function StrippedAll(listing: seq<string>): (r: seq<string>)
    ensures |r| == |listing|
  {
    seq(|listing|, i requires 0 <= i < |listing| => StripExtensions(listing[i]))
  }

  // ----- Caddyfile -----

  /** buildSecureCaddyfile(): the four placeholders of the stub are replaced,
      one after the other, by the host, its certificate path, its key path
      and the FPM address. A stub without placeholders is written as it is. */
  function BuildSecureCaddyfile(env: Env, url: string): (r: string)
    ensures var stub := env.secureCaddyStub;
      && !IsSubstring("VALET_SITE", stub) && !IsSubstring("VALET_CERT", stub)
      && !IsSubstring("VALET_KEY", stub) && !IsSubstring("FPM_ADDRESS", stub)
      ==> r == stub
  {
    ReplaceAbsent(env.secureCaddyStub, "VALET_SITE", url);
    ReplaceAbsent(env.secureCaddyStub, "VALET_CERT", CrtPath(env.home, url));
    ReplaceAbsent(env.secureCaddyStub, "VALET_KEY", KeyPath(env.home, url));
    ReplaceAbsent(env.secureCaddyStub, "FPM_ADDRESS", env.fpmAddress);
    var s1 := Replace(env.secureCaddyStub, "VALET_SITE", url);
    var s2 := Replace(s1, "VALET_CERT", CrtPath(env.home, url));
    var s3 := Replace(s2, "VALET_KEY", KeyPath(env.home, url));
    Replace(s3, "FPM_ADDRESS", env.fpmAddress)
  }

  // ----- Commands -----

  /** The commands createCertificate(url) issues, in order: the three
      openssl steps as the user, each reading what the one before wrote, and
      the trust-store add of the certificate as root. */
  function CertificatePipeline(home: string, url: string): (r: seq<Command>)
    ensures |r| == 4 && r[0].RunAsUser? && r[1].RunAsUser? && r[2].RunAsUser? && r[3].Run?
    ensures r[0].cmd.GenerateKey? && r[1].cmd.SigningRequest? && r[2].cmd.SelfSign? && r[3].cmd.AddTrustedCert?
    ensures r[1].cmd.url == url
    ensures r[1].cmd.keyPath == r[0].cmd.keyPath && r[2].cmd.keyPath == r[0].cmd.keyPath
    ensures r[2].cmd.csrPath == r[1].cmd.csrPath && r[3].cmd.crtPath == r[2].cmd.crtPath
    ensures r[0].cmd.keyPath in Artifacts(home, url) && r[1].cmd.csrPath in Artifacts(home, url)
    ensures r[2].cmd.crtPath in Artifacts(home, url)
    ensures r[0].cmd.keyPath == KeyPath(home, url) && r[1].cmd.csrPath == CsrPath(home, url) && r[2].cmd.crtPath == CrtPath(home, url)
  {
    var key, csr, crt := KeyPath(home, url), CsrPath(home, url), CrtPath(home, url);
    [RunAsUser(GenerateKey(key)), RunAsUser(SigningRequest(url, key, csr)),
     RunAsUser(SelfSign(csr, key, crt)), Run(AddTrustedCert(crt))]
  }

  /** The exact command lines of createCertificate's key, certificate and
      trust steps: a 2048-bit key, a certificate valid for 365 days signed
      with that key, and the add to the system keychain as a trusted root. */
  lemma CertificatePipelineText(home: string, url: string)
    ensures var r, key, csr, crt := CertificatePipeline(home, url), KeyPath(home, url), CsrPath(home, url), CrtPath(home, url);
      && Line(r[0].cmd) == "openssl genrsa -out " + key + " 2048"
      && Line(r[2].cmd) == "openssl x509 -req -days 365 -in " + csr + " -signkey " + key + " -out " + crt
      && Line(r[3].cmd) == "sudo security add-trusted-cert -d -r trustRoot -k /Library/Keychains/System.keychain " + crt
  {
    var r, key, csr, crt := CertificatePipeline(home, url), KeyPath(home, url), CsrPath(home, url), CrtPath(home, url);
    assert r[0].cmd == GenerateKey(key) && r[2].cmd == SelfSign(csr, key, crt) && r[3].cmd == AddTrustedCert(crt);
  }

  /** The exact command line of createCertificate's signing request: the
      subject is empty except for the host as common name, and the key is
      read with an empty passphrase. */
  lemma SigningRequestText(home: string, url: string)
    ensures var r, key, csr := CertificatePipeline(home, url), KeyPath(home, url), CsrPath(home, url);
      Line(r[1].cmd) == "openssl req -new -subj \"/C=/ST=/O=/localityName=/commonName=" + url
        + "/organizationalUnitName=/emailAddress=/\" -key " + key + " -out " + csr + " -passin pass:"
  {
    assert CertificatePipeline(home, url)[1].cmd == SigningRequest(url, KeyPath(home, url), CsrPath(home, url));
  }

  // ----- State transitions -----
  // An openssl step is modelled only by the file it writes: it writes its
  // output when its input files exist. A key's contents are opaque (""); a
  // signing request and a certificate hold their subject's common name.

  function AfterCreatePrivateKey(w: World, keyPath: string): World
  {
    World(Put(w.fs, keyPath, ""), w.trusted, w.log + [RunAsUser(GenerateKey(keyPath))])
  }

  function AfterCreateSigningRequest(w: World, url: string, keyPath: string, csrPath: string): World
  {
    World(if IsFile(w.fs, keyPath) then Put(w.fs, csrPath, url) else w.fs,
          w.trusted, w.log + [RunAsUser(SigningRequest(url, keyPath, csrPath))])
  }

  function AfterSign(w: World, csrPath: string, keyPath: string, crtPath: string): World
  {
    World(if IsFile(w.fs, csrPath) && IsFile(w.fs, keyPath) then Put(w.fs, crtPath, Get(w.fs, csrPath)) else w.fs,
          w.trusted, w.log + [RunAsUser(SelfSign(csrPath, keyPath, crtPath))])
  }

  /** The trust store gains the common name of the certificate at crtPath. */
  function AfterTrustCertificate(w: World, crtPath: string): World
  {
    World(w.fs, if IsFile(w.fs, crtPath) then w.trusted + multiset{Get(w.fs, crtPath)} else w.trusted,
          w.log + [Run(AddTrustedCert(crtPath))])
  }

  function AfterCreateCertificate(w: World, home: string, url: string): World
  {
    var key, csr, crt := KeyPath(home, url), CsrPath(home, url), CrtPath(home, url);
    AfterTrustCertificate(AfterSign(AfterCreateSigningRequest(AfterCreatePrivateKey(w, key), url, key, csr), csr, key, crt), crt)
  }

  /** unsecure(url): guarded on the .crt file only. */
  function AfterUnsecure(w: World, home: string, url: string): World
  {
    if HasCertificate(w.fs, home, url) then
      World(Unlink(Unlink(Unlink(Unlink(w.fs, CaddyPath(home, url)), KeyPath(home, url)), CsrPath(home, url)), CrtPath(home, url)),
            w.trusted - multiset{url}, w.log + [Run(DeleteCertificate(url))])
    else w
  }

  /** The shell text unsecure adds: the delete-certificate of the host's
      common name from the keychain when a certificate exists, and nothing
      otherwise. */
  lemma UnsecureText(w: World, home: string, url: string)
    ensures ShellLines(AfterUnsecure(w, home, url).log) == ShellLines(w.log)
      + if HasCertificate(w.fs, home, url) then ["sudo security delete-certificate -c \"" + url + "\" -t"] else []
  {
    if HasCertificate(w.fs, home, url) {
      ShellLinesConcat(w.log, [Run(DeleteCertificate(url))]);
      assert ShellLines([Run(DeleteCertificate(url))]) == [Line(DeleteCertificate(url))];
    }
  }

  /** secure(url): reset, make the Certificates directory, issue, write the
      Caddy fragment. */
  function AfterSecure(w: World, env: Env, url: string): World
  {
    var w1 := AfterUnsecure(w, env.home, url);
    var w2 := w1.(fs := EnsureDir(w1.fs, CertificatesPath(env.home)));
    var w3 := AfterCreateCertificate(w2, env.home, url);
    w3.(fs := Put(w3.fs, CaddyPath(env.home, url), BuildSecureCaddyfile(env, url)))
  }

  /** unsecure applied to each url in turn. */
  function AfterUnsecureAll(w: World, home: string, urls: seq<string>): World
    decreases |urls|
  {
    if urls == [] then w
    else AfterUnsecure(AfterUnsecureAll(w, home, urls[..|urls| - 1]), home, urls[|urls| - 1])
  }

  /** secure applied to each url in turn. */
  function AfterSecureAll(w: World, env: Env, urls: seq<string>): World
    decreases |urls|
  {
    if urls == [] then w
    else AfterSecure(AfterSecureAll(w, env, urls[..|urls| - 1]), env, urls[|urls| - 1])
  }

  lemma UnsecureAllStep(w: World, home: string, urls: seq<string>, i: nat)
    requires i < |urls|
    ensures AfterUnsecureAll(w, home, urls[..i + 1]) == AfterUnsecure(AfterUnsecureAll(w, home, urls[..i]), home, urls[i])
  {
    assert urls[..i + 1][..i] == urls[..i];
  }

  lemma SecureAllStep(w: World, env: Env, urls: seq<string>, i: nat)
    requires i < |urls|
    ensures AfterSecureAll(w, env, urls[..i + 1]) == AfterSecure(AfterSecureAll(w, env, urls[..i]), env, urls[i])
  {
    assert urls[..i + 1][..i] == urls[..i];
  }

  /** str_replace('.'.$oldDomain, '.'.$domain, $url): a host outside the
      old domain keeps its name. */
  function Renamed(url: string, oldDomain: string, domain: string): (r: string)
    ensures !IsSubstring("." + oldDomain, url) ==> r == url
  {
    ReplaceAbsent(url, "." + oldDomain, "." + domain);
    Replace(url, "." + oldDomain, "." + domain)
  }

  /** The renamed snapshot, host by host: as long as the snapshot, and a host
      outside the old domain keeps its name and its place. */
  function RenamedAll(urls: seq<string>, oldDomain: string, domain: string): (r: seq<string>)
    ensures |r| == |urls|
    ensures forall i :: 0 <= i < |urls| && !IsSubstring("." + oldDomain, urls[i]) ==> r[i] == urls[i]
  {
    seq(|urls|, i requires 0 <= i < |urls| => Renamed(urls[i], oldDomain, domain))
  }

  /** resecureForNewDomain with the snapshot secured() returned. */
  function AfterResecure(w: World, env: Env, snapshot: seq<string>, oldDomain: string, domain: string): World
  {
    if !Exists(w.fs, CertificatesPath(env.home)) then w
    else AfterSecureAll(AfterUnsecureAll(w, env.home, snapshot), env, RenamedAll(snapshot, oldDomain, domain))
  }

  function AfterLink(w: World, home: string, target: string, name: string): World
  {
    w.(fs := Symlink(EnsureDir(w.fs, SitesPath(home)), target, SitesPath(home) + "/" + name))
  }

  function AfterUnlink(w: World, home: string, name: string): World
  {
    var p := SitesPath(home) + "/" + name;
    if Exists(w.fs, p) then w.(fs := Unlink(w.fs, p)) else w
  }

  // ----- host() -----

  /** realpath(Sites/name) == path with PHP's loose comparison: a resolved
      path compares as a string; an unresolvable one is false, which equals
      exactly the falsy strings "" and "0". */
  predicate LinksTo(fs: Tree, home: string, name: string, path: string)
  {
    match RealPath(fs, SitesPath(home) + "/" + name)
    case Some(p) => p == path
    case None => path == "" || path == "0"
  }

  /** The first entry of the listing that resolves to path. */
  function FirstLinkTo(fs: Tree, home: string, listing: seq<string>, path: string): (r: Option<string>)
    ensures r.None? <==> forall n :: n in listing ==> !LinksTo(fs, home, n, path)
    ensures r.Some? ==>
      && r.value in listing
      && LinksTo(fs, home, r.value, path)
      && (forall j :: 0 <= j < FirstIndex(listing, r.value) ==> !LinksTo(fs, home, listing[j], path))
  {
    if listing == [] then None
    else if LinksTo(fs, home, listing[0], path) then Some(listing[0])
    else
      var r := FirstLinkTo(fs, home, listing[1..], path);
      assert listing == [listing[0]] + listing[1..];
      assert r.Some? ==> FirstIndex(listing, r.value) == 1 + FirstIndex(listing[1..], r.value);
      r
  }

  /** host(path) on a given listing of the Sites directory. */
  function HostName(fs: Tree, home: string, listing: seq<string>, path: string): string
  {
    match FirstLinkTo(fs, home, listing, path)
    case Some(name) => name
    case None => Basename(path)
  }

  class Site {
    const env: Env
    var fs: Tree
    var trusted: multiset<string>
    var log: seq<Command>

    ghost function State(): World
      reads this
    {
      World(fs, trusted, log)
    }

    constructor (env: Env, fs: Tree, trusted: multiset<string>)
      ensures this.env == env && State() == World(fs, trusted, [])
    {
      this.env := env;
      this.fs := fs;
      this.trusted := trusted;
      this.log := [];
    }

    /** host(): the first Sites entry, in scan order, that resolves to path;
        otherwise the basename of path. */
    method Host(path: string) returns (name: string)
      ensures exists listing ::
        IsListing(fs, SitesPath(env.home), listing) && name == HostName(fs, env.home, listing, path)
    {
      var listing := ScanDir(fs, SitesPath(env.home));
      var i := 0;
      while i < |listing|
        invariant 0 <= i <= |listing|
        invariant FirstLinkTo(fs, env.home, listing, path) == FirstLinkTo(fs, env.home, listing[i..], path)
      {
        if LinksTo(fs, env.home, listing[i], path) {
          return listing[i];
        }
        assert listing[i..][1..] == listing[i + 1..];
        i := i + 1;
      }
      return Basename(path);
    }

    method Link(target: string, name: string) returns (path: string)
      modifies this
      ensures path == SitesPath(env.home) + "/" + name
      ensures State() == AfterLink(old(State()), env.home, target, name)
    {
      var linkPath := SitesPath(env.home);
      fs := EnsureDir(fs, linkPath);
      fs := Symlink(fs, target, linkPath + "/" + name);
      return linkPath + "/" + name;
    }

    method Unlink(name: string)
      modifies this
      ensures State() == AfterUnlink(old(State()), env.home, name)
    {
      var path := SitesPath(env.home) + "/" + name;
      if Exists(fs, path) {
        fs := FileSystem.Unlink(fs, path);
      }
    }

    /** resecureForNewDomain(): one snapshot, every host unsecured, then every
        host secured under its renamed name. */
    method ResecureForNewDomain(oldDomain: string, domain: string)
      modifies this
      ensures !Exists(old(fs), CertificatesPath(env.home)) ==> State() == old(State())
      ensures Exists(old(fs), CertificatesPath(env.home)) ==>
        exists listing ::
          IsListing(old(fs), CertificatesPath(env.home), listing)
          && State() == AfterResecure(old(State()), env, SecuredNames(listing), oldDomain, domain)
    {
      if !Exists(fs, CertificatesPath(env.home)) {
        return;
      }
      var secured := Secured();
      ghost var listing :| IsListing(fs, CertificatesPath(env.home), listing) && secured == SecuredNames(listing);
      UnsecureEach(secured);
      SecureEach(RenamedAll(secured, oldDomain, domain));
    }

    /** The first loop of resecureForNewDomain: unsecure each host in turn. */
    method UnsecureEach(urls: seq<string>)
      modifies this
      ensures State() == AfterUnsecureAll(old(State()), env.home, urls)
    {
      ghost var w0 := State();
      var i := 0;
      while i < |urls|
        invariant 0 <= i <= |urls|
        invariant State() == AfterUnsecureAll(w0, env.home, urls[..i])
      {
        Unsecure(urls[i]);
        UnsecureAllStep(w0, env.home, urls, i);
        i := i + 1;
      }
      assert urls[..i] == urls;
    }

    /** The second loop of resecureForNewDomain: secure each host in turn. */
    method SecureEach(urls: seq<string>)
      modifies this
      ensures State() == AfterSecureAll(old(State()), env, urls)
    {
      ghost var w0 := State();
      var i := 0;
      while i < |urls|
        invariant 0 <= i <= |urls|
        invariant State() == AfterSecureAll(w0, env, urls[..i])
      {
        Secure(urls[i]);
        SecureAllStep(w0, env, urls, i);
        i := i + 1;
      }
      assert urls[..i] == urls;
    }

    /** secured(): the host names derived from the Certificates entries. */
    method Secured() returns (urls: seq<string>)
      ensures exists listing ::
        IsListing(fs, CertificatesPath(env.home), listing) && urls == SecuredNames(listing)
      ensures NoDups(urls)
      ensures forall u :: u in urls <==>
        exists n :: n in Entries(fs, CertificatesPath(env.home)) && StripExtensions(n) == u
    {
      var listing := ScanDir(fs, CertificatesPath(env.home));
      urls := SecuredNames(listing);
      forall u
        ensures u in urls <==> exists n :: n in Entries(fs, CertificatesPath(env.home)) && StripExtensions(n) == u
      {
        if u in urls {
          var i :| 0 <= i < |listing| && StripExtensions(listing[i]) == u;
          assert listing[i] in Entries(fs, CertificatesPath(env.home));
        }
        if exists n :: n in Entries(fs, CertificatesPath(env.home)) && StripExtensions(n) == u {
          var n :| n in Entries(fs, CertificatesPath(env.home)) && StripExtensions(n) == u;
          var i :| 0 <= i < |listing| && listing[i] == n;
          assert StripExtensions(listing[i]) == u;
        }
      }
    }

    method Secure(url: string)
      modifies this
      ensures State() == AfterSecure(old(State()), env, url)
    {
      Unsecure(url);
      fs := EnsureDir(fs, CertificatesPath(env.home));
      CreateCertificate(url);
      fs := Put(fs, CaddyPath(env.home, url), BuildSecureCaddyfile(env, url));
    }

    method CreateCertificate(url: string)
      modifies this
      ensures State() == AfterCreateCertificate(old(State()), env.home, url)
    {
      var keyPath := KeyPath(env.home, url);
      var csrPath := CsrPath(env.home, url);
      var crtPath := CrtPath(env.home, url);
      ghost var w0 := State();

      CreatePrivateKey(keyPath);
      CreateSigningRequest(url, keyPath, csrPath);
      ghost var w2 := State();
      assert w2 == AfterCreateSigningRequest(AfterCreatePrivateKey(w0, keyPath), url, keyPath, csrPath);

      log := log + [RunAsUser(SelfSign(csrPath, keyPath, crtPath))];
      if IsFile(fs, csrPath) && IsFile(fs, keyPath) {
        fs := Put(fs, crtPath, Get(fs, csrPath));
      }
      assert State() == AfterSign(w2, csrPath, keyPath, crtPath);

      TrustCertificate(crtPath);
    }

    method CreatePrivateKey(keyPath: string)
      modifies this
      ensures State() == AfterCreatePrivateKey(old(State()), keyPath)
    {
      log := log + [RunAsUser(GenerateKey(keyPath))];
      fs := Put(fs, keyPath, "");
    }

    method CreateSigningRequest(url: string, keyPath: string, csrPath: string)
      modifies this
      ensures State() == AfterCreateSigningRequest(old(State()), url, keyPath, csrPath)
    {
      log := log + [RunAsUser(SigningRequest(url, keyPath, csrPath))];
      if IsFile(fs, keyPath) {
        fs := Put(fs, csrPath, url);
      }
    }

    method TrustCertificate(crtPath: string)
      modifies this
      ensures State() == AfterTrustCertificate(old(State()), crtPath)
    {
      log := log + [Run(AddTrustedCert(crtPath))];
      if IsFile(fs, crtPath) {
        trusted := trusted + multiset{Get(fs, crtPath)};
      }
    }

    method Unsecure(url: string)
      modifies this
      ensures State() == AfterUnsecure(old(State()), env.home, url)
    {
      if HasCertificate(fs, env.home, url) {
        fs := FileSystem.Unlink(fs, CaddyPath(env.home, url));
        fs := FileSystem.Unlink(fs, KeyPath(env.home, url));
        fs := FileSystem.Unlink(fs, CsrPath(env.home, url));
        fs := FileSystem.Unlink(fs, CrtPath(env.home, url));
        log := log + [Run(DeleteCertificate(url))];
        trusted := trusted - multiset{url};
      }
    }
  }
}

# Valet for Linux: sites, TLS and the dnsmasq resolver

This project models two classes of Valet for Linux, a development server
that serves project directories under host names such as `blog.dev`:

- `Site` (`cli/Valet/Site.php`) keeps the table of linked sites (symbolic
  links under `<home>/Sites`), lists the hosts that have TLS from the
  `<home>/Certificates` directory, secures a host (signing key, signing
  request and self-signed certificate made with openssl, the certificate
  added to the system trust store, and a per-host Caddy fragment written from
  a stub) and unsecures it again. It also moves every secured host from one
  domain to another (`resecureForNewDomain`).
- `DnsMasq` (`cli/Valet/DnsMasq.php`) installs dnsmasq, disables
  NetworkManager's control of it, seeds `/etc/dnsmasq.conf` when it is
  missing, appends a `conf-file=` import of Valet's own fragment
  `<home>/dnsmasq.conf`, and overwrites that fragment with a single
  `address=/.<domain>/127.0.0.1` line.

Each class is a Dafny `class` whose fields are the state the PHP object
changes through its collaborators:

- the filesystem, a map from absolute path to file, directory or symbolic link;
- the system trust store, a multiset of certificate common names;
- the log of commands issued.

Every state-changing method is proved equal to an "After" function on a state value
(`Sites.World`, `Dns.DnsState`). The properties are lemmas about those
functions:

- what each operation creates, removes and logs;
- idempotence;
- the trust store following the certificates;
- the rename that `resecureForNewDomain` performs;
- the order of the commands a domain rename issues;
- the placeholders of the Caddy fragment;
- the host lookup;
- the seed-once and import-once behaviour of the resolver configuration.

Modules:

- `Strings` (strings.dfy) holds the PHP string functions the core relies on:
  - `str_replace` with one needle;
  - `strpos` as a substring test;
  - `array_unique` with `values()`;
  - `basename`.
- `FileSystem` (filesystem.dfy) is the filesystem collaborator, with `scandir` in an order the model leaves open.
- `CommandLine` (commandline.dfy) holds the shell commands, each by its arguments, and their exact text.
- `Sites` (sites.dfy) is the `Site` class and its specification functions.
- `SiteProperties` (site_properties.dfy) states what `Site`'s operations, from `link` and `unlink` to `resecureForNewDomain`, do to the filesystem, the trust store and the log.
- `SiteNames` (site_names.dfy) covers `secured()`'s order, the domain rename, the Caddy fragment and `host()`.
- `Dns` (dns.dfy) is the `DnsMasq` class, its specification functions and its properties.

Where the code and its description differ, the model follows the code:

- `copyExampleConfig` does not seed the primary configuration from the bundled template. The constructor stores the template's *contents* in `exampleConfigPath`, and `copyExampleConfig` copies from the path those contents name. `Dns.DnsMasq.constructor` keeps exactly that value. The model therefore does not claim that the seeded configuration equals the template.
- `createCustomConfigFile` seeds and appends the import first, and writes the fragment last.

Two hypotheses recur in the properties of `secured()`:

- a *clean* host name contains no '/' and none of `.key`, `.csr`, `.crt`;
- a Certificates directory is *well formed* when every entry is a clean host name followed by one of the three extensions, that host's .crt exists, and every host with a .crt is clean. This is what `secure()` produces for clean host names.

## Model

| member | source | states |
|---|---|---|
| Sites.Site.constructor | cli/Valet/Site.php:18-23 | the object starts from the given environment, filesystem and trust store, with an empty log |
| Sites.Site.Host | cli/Valet/Site.php:32-41 | for some scan order of the Sites directory, the answer is `HostName`: the first entry whose resolved path loosely equals `path`, else `basename(path)` |
| Sites.FirstLinkTo | cli/Valet/Site.php:34-38 | none is found exactly when no entry resolves to the path; a found entry resolves to it and no earlier entry does |
| SiteNames.HostIsFirstMatch | cli/Valet/Site.php:34-38 | on a listing without duplicates, the host is the entry at the least index that resolves to the path |
| SiteNames.HostFallsBackToBasename | cli/Valet/Site.php:40 | with no resolving entry, `host(dir/name)` is `name` |
| Strings.Basename | cli/Valet/Site.php:40 | basename contains no '/' |
| Strings.BasenameOfEntry | cli/Valet/Site.php:40 | the basename of `dir/name` is `name` |
| Sites.Site.Link | cli/Valet/Site.php:51-62 | returns `<home>/Sites/<name>`; the Sites directory is ensured and a link to the target is stored at that path |
| SiteProperties.LinkThenHost | cli/Valet/Site.php:32-62 | after `link(target, name)` with an existing target, `name` is listed and resolves to the target, and `host(target)` answers a listed entry that resolves to the target |
| Sites.Site.Unlink | cli/Valet/Site.php:71-76 | the link is removed when `file_exists` holds for `<home>/Sites/<name>` (a link counts only if its target exists); otherwise nothing changes |
| SiteProperties.UnlinkRemovesLink | cli/Valet/Site.php:71-76 | when `file_exists` holds, nothing is stored at the link path afterwards; otherwise, as for a dangling link, nothing changes; every other path, the trust store and the log are unchanged |
| SiteProperties.LinkThenUnlink | cli/Valet/Site.php:51-76 | link then unlink of one name leaves only the ensured Sites directory behind when the target exists; a link to a missing target stays |
| Sites.Site.ResecureForNewDomain | cli/Valet/Site.php:98-113 | no change without the Certificates directory; otherwise the new state is one `secured()` snapshot unsecured in order and then every renamed host secured in order |
| Sites.Site.UnsecureEach | cli/Valet/Site.php:106-108 | the loop leaves the state of unsecuring each host of the snapshot in turn |
| Sites.Site.SecureEach | cli/Valet/Site.php:110-112 | the loop leaves the state of securing each renamed host in turn |
| SiteProperties.UnsecureAllEffect | cli/Valet/Site.php:106-108 | the unsecure pass removes exactly the artifacts of snapshot hosts that had a .crt, and every other path keeps its node |
| SiteProperties.SecureAllKeys | cli/Valet/Site.php:110-112 | the secure pass keeps every path and adds only the Certificates directory and the four artifacts of each host |
| SiteProperties.ResecureRenamesCertificates | cli/Valet/Site.php:98-113 | for a snapshot listing exactly the hosts with a .crt, afterwards a host has a .crt if and only if it is a renamed host, and a snapshot host that is not also a renamed host keeps no artifact |
| SiteProperties.ResecureTrust | cli/Valet/Site.php:98-113 | with a consistent trust store before, afterwards every renamed host is trusted exactly once and no other host is trusted |
| SiteProperties.ResecureRenamesSecuredHosts | cli/Valet/Site.php:98-126 | with `secured()` as the snapshot on a well-formed Certificates directory, the hosts left with a .crt are exactly the renamed hosts |
| SiteProperties.ResecureKeepsWellFormed | cli/Valet/Site.php:98-126 | when the renamed hosts are clean names, the Certificates directory stays well formed, so a later `secured()` lists exactly the renamed hosts |
| SiteProperties.ResecuredWellFormed | cli/Valet/Site.php:98-113 | the same for any snapshot that lists exactly the hosts with a .crt |
| SiteNames.RenameSuffix | cli/Valet/Site.php:111 | for an old domain without '.', `v.old` becomes `v.new` when `.old` does not occur in `v` |
| SiteNames.RenameEveryOccurrence | cli/Valet/Site.php:111 | for an old domain without '.', every occurrence is replaced: `v.old.old` becomes `v.new.new` |
| SiteNames.RenameDottedDomain | cli/Valet/Site.php:111 | for the dotted old domain `a.a`, `q.a.a.a` becomes `q.new.a`: the first match is renamed, not the suffix |
| Sites.Renamed | cli/Valet/Site.php:111 | a host that does not contain `.old` keeps its name |
| Sites.RenamedAll | cli/Valet/Site.php:110-111 | as many renamed hosts as snapshot hosts, and a snapshot host outside the old domain keeps its name and its place |
| SiteProperties.UnsecureLog | cli/Valet/Site.php:239-247 | unsecure logs one delete-certificate for url exactly when its .crt exists, and nothing else |
| SiteProperties.UnsecureAllLog | cli/Valet/Site.php:106-108 | the unsecure pass only appends to the log, every command it appends deletes the certificate of a snapshot host, and it generates no key |
| SiteProperties.SecureLog | cli/Valet/Site.php:135-169 | secure appends the delete-certificate of unsecure (when a .crt existed) and then the four certificate commands |
| SiteProperties.SecureAllLog | cli/Valet/Site.php:110-112 | the secure pass only appends to the log, and the keys it generates are those of the given hosts, one each, in order |
| SiteProperties.ResecureLogOrder | cli/Valet/Site.php:104-112 | the log of a rename is the old log, then only deletes of snapshot certificates, then the secure pass; no key is generated before the secure pass begins, and the keys generated name the renamed snapshot hosts one each in snapshot order |
| Sites.StripExtensions | cli/Valet/Site.php:124 | never longer than the entry name, and a name without .key, .csr or .crt is kept as it is |
| Sites.Site.Secured | cli/Valet/Site.php:120-126 | the answer has no duplicates, and a host is in it exactly when some Certificates entry strips to it |
| Sites.SecuredNames | cli/Valet/Site.php:120-126 | the stripped names of the listing, each once |
| Strings.Dedup | cli/Valet/Site.php:125 | no duplicates, and the same elements as the input |
| Strings.DedupKeepsFirstOccurrenceOrder | cli/Valet/Site.php:125 | the kept elements appear in the order of their first occurrences |
| SiteNames.SecuredNamesKeepListingOrder | cli/Valet/Site.php:120-126 | hosts appear in the order of the first listing entry that strips to each |
| SiteNames.OneHostListedOnce | cli/Valet/Site.php:120-126 | the .crt, .csr and .key of one clean host are listed as that host once |
| SiteNames.StripInsideHostName | cli/Valet/Site.php:124 | an extension inside a host name is removed too: the certificate `a.keyb.crt` is listed as `ab` |
| SiteProperties.StripClean | cli/Valet/Site.php:124 | a clean host name followed by one extension strips back to the name |
| SiteProperties.SecuredNamesExact | cli/Valet/Site.php:120-126 | on a well-formed Certificates directory, `secured()` lists a host exactly when its .crt exists |
| SiteProperties.SecuredNameHasCertificate | cli/Valet/Site.php:120-126 | every host `secured()` lists on a well-formed directory has a .crt |
| SiteProperties.CertificateIsSecured | cli/Valet/Site.php:120-126 | on a well-formed Certificates directory, every host with a .crt is listed by `secured()` |
| Sites.Site.Secure | cli/Valet/Site.php:135-146 | the new state is unsecure, then Certificates directory ensured, then certificate created, then Caddy fragment written |
| SiteProperties.SecureEffect | cli/Valet/Site.php:135-146 | the log gains a delete only when a .crt existed, then the four certificate commands; key, signing request, certificate and Caddy fragment hold their contents; the Certificates directory exists; every other path is unchanged; url is trusted once more than unsecure left it |
| SiteProperties.SecureKeys | cli/Valet/Site.php:135-146 | afterwards a path exists exactly when it existed, or is the Certificates directory, or is an artifact of url |
| SiteProperties.SecureState | cli/Valet/Site.php:135-146 | from the state unsecure leaves, the directory is ensured and the three certificate files and then the fragment are written |
| SiteProperties.SecureIdempotent | cli/Valet/Site.php:135-146 | securing twice leaves the same files and the same trust store as securing once |
| SiteProperties.SecureKeepsTrustConsistent | cli/Valet/Site.php:135-146 | secure keeps the trust store one entry per host with a .crt, and url is trusted exactly once |
| Sites.CertificatePipeline | cli/Valet/Site.php:155-169 | four commands: genrsa, req for url and x509 as the user, then the trust-store add as root; genrsa writes url's .key path, req writes its .csr path from that key, x509 signs that request with that key into its .crt path, and the trust-store add reads that certificate |
| Sites.CertificatePipelineText | cli/Valet/Site.php:155-210 | the exact text: `openssl genrsa -out <key> 2048`, `openssl x509 -req -days 365 -in <csr> -signkey <key> -out <crt>` and `sudo security add-trusted-cert -d -r trustRoot -k /Library/Keychains/System.keychain <crt>`, with the host's own .key, .csr and .crt paths |
| Sites.SigningRequestText | cli/Valet/Site.php:190-196 | the exact text of the signing request: a subject empty but for the host as common name, the host's key and request paths, and an empty passphrase (`-passin pass:`) |
| Sites.Site.CreateCertificate | cli/Valet/Site.php:155-169 | the new state is key, then signing request, then signed certificate, then trust, on the url's three paths |
| SiteProperties.CreateCertificateEffect | cli/Valet/Site.php:155-169 | the log gains genrsa, req and x509 as the user, then the trust-store add as root; the key, the request and the certificate are written; url gains one trust entry |
| Sites.Site.CreatePrivateKey | cli/Valet/Site.php:178-181 | logs `openssl genrsa` as the user and leaves a key at the path |
| Sites.Site.CreateSigningRequest | cli/Valet/Site.php:190-196 | logs `openssl req` as the user, and a request naming url exists when the key does |
| Sites.Site.TrustCertificate | cli/Valet/Site.php:205-210 | logs `security add-trusted-cert` as root; the trust store gains the certificate's common name when the certificate exists |
| Sites.BuildSecureCaddyfile | cli/Valet/Site.php:219-228 | a stub holding none of the four placeholders is written unchanged |
| SiteNames.CaddyfileAllPlaceholders | cli/Valet/Site.php:219-228 | a stub holding VALET_SITE, VALET_CERT, VALET_KEY and FPM_ADDRESS once each, in that order, with no placeholder elsewhere or formed at a junction, becomes the stub with the host, the .crt path, the key path and the FPM address in their places |
| SiteNames.CaddyfileEverySite | cli/Valet/Site.php:219-228 | a stub whose only placeholder is VALET_SITE, however many times it occurs, has every occurrence replaced by the host and the text between kept, when the result forms no other placeholder |
| SiteNames.CaddyfileCertificate | cli/Valet/Site.php:219-228 | for a stub `a VALET_CERT b` with no other placeholder, the fragment is `a`, the .crt path, `b`; that path is the one x509 writes and the trust-store add reads |
| SiteNames.CaddyfileKey | cli/Valet/Site.php:219-228 | for a stub `a VALET_KEY b` with no other placeholder, the fragment is `a`, the key path, `b`; that path is the one genrsa writes and x509 signs with |
| SiteNames.CaddyfileSite | cli/Valet/Site.php:219-228 | for a stub `a VALET_SITE b` whose host name brings no placeholder in, the fragment is `a`, the host, `b`; the signing request is issued for that host |
| SiteNames.CaddyfileFpmAddress | cli/Valet/Site.php:219-228 | for a stub `a FPM_ADDRESS b` with no other placeholder, the fragment is `a`, the configured FPM address, `b` |
| SiteNames.CaddyfileSubstitutesInOrder | cli/Valet/Site.php:223-227 | the substitutions run in array order: a host name that is itself VALET_CERT ends up as the certificate path |
| Sites.Site.Unsecure | cli/Valet/Site.php:237-248 | guarded by the .crt; removes the fragment, key, request and certificate, logs one delete-certificate, drops one trust entry |
| Sites.UnsecureText | cli/Valet/Site.php:239-246 | the shell text gains exactly `sudo security delete-certificate -c "<host>" -t` when a certificate exists, and nothing otherwise |
| SiteProperties.UnsecureEffect | cli/Valet/Site.php:237-248 | without a .crt nothing changes, even if key or request exist; with it exactly the four artifacts go, other nodes keep their values, one trust entry is dropped, one command is logged |
| SiteProperties.UnsecureIdempotent | cli/Valet/Site.php:237-248 | a second unsecure changes nothing |
| SiteProperties.UnsecureUndoesSecure | cli/Valet/Site.php:135-248 | secure then unsecure leaves the original files minus every artifact of url, plus the Certificates directory, and the trust store unsecure alone leaves |
| SiteProperties.UnsecureKeepsTrustConsistent | cli/Valet/Site.php:237-248 | unsecure keeps the trust store one entry per host with a .crt |
| SiteProperties.UnsecureAllKeepsTrustConsistent | cli/Valet/Site.php:106-108 | so does the unsecure pass of a rename |
| SiteProperties.SecureAllKeepsTrustConsistent | cli/Valet/Site.php:110-112 | so does the secure pass |
| SiteProperties.LinkKeepsTrustConsistent | cli/Valet/Site.php:51-62 | linking a site does not disturb it |
| SiteProperties.UnlinkKeepsTrustConsistent | cli/Valet/Site.php:71-76 | unlinking a site does not disturb it |
| Sites.SitesPath | cli/Valet/Site.php:279-282 | the Sites directory is an entry directly under the Valet home |
| Sites.CertificatesPath | cli/Valet/Site.php:289-292 | the Certificates directory is an entry directly under the Valet home, apart from the Sites directory |
| Sites.ArtifactsDistinct | cli/Valet/Site.php:141-160 | a host's fragment, key, request and certificate are four different paths, none of them the Certificates directory |
| Sites.ArtifactsDisjoint | cli/Valet/Site.php:141-160 | two different hosts share no artifact path |
| Sites.NotAnArtifact | cli/Valet/Site.php:279-292 | the Sites and Certificates directories and the Sites entries are never artifacts |
| Strings.Replace | cli/Valet/Site.php:111 | a replacement no longer than the needle never lengthens the text |
| Strings.ReplaceAbsent | cli/Valet/Site.php:111 | replacing a needle that does not occur changes nothing |
| Strings.ReplaceOnce | cli/Valet/Site.php:223-227 | a text with the needle once, the needle's first character not recurring in it, and no other occurrence has exactly that occurrence replaced |
| Strings.ReplaceEvery | cli/Valet/Site.php:223-227 | a text of needle-free pieces with the needle between each two (the needle's first character not recurring in it) becomes the same pieces with the replacement between each two: every occurrence is replaced |
| Strings.Contains | cli/Valet/DnsMasq.php:126 | the scan finds the needle exactly when it is a substring |
| Dns.DnsMasq.constructor | cli/Valet/DnsMasq.php:21-27 | `exampleConfigPath` holds what the stub file contains; the filesystem is as given and the log empty |
| Dns.DnsMasq.Install | cli/Valet/DnsMasq.php:34-47 | the domain defaults to `dev`; the new state is the dnsmasq package ensured, the manual handoff, the fragment created, and dnsmasq restarted |
| Dns.InstallCommands | cli/Valet/DnsMasq.php:34-47 | the install comes first, then one grep; the five NetworkManager commands appear exactly when the grep printed something truthy; the restart comes last |
| Dns.InstallTwiceIsInstallOnce | cli/Valet/DnsMasq.php:34-47 | a second install with the same domain leaves the filesystem unchanged |
| Dns.DnsMasq.CreateCustomConfigFile | cli/Valet/DnsMasq.php:56-65 | seed, then import, then overwrite the fragment; no command is logged |
| Dns.CreateCustomConfigEffect | cli/Valet/DnsMasq.php:56-65 | the fragment holds exactly the domain line; for a home other than /etc, it is imported and the primary configuration is the seeded text plus at most one import line; for a home of /etc, the domain line replaces the primary configuration |
| Dns.FragmentOverwritten | cli/Valet/DnsMasq.php:56-65 | creating the fragment for one domain and then another leaves only the second domain's line |
| Dns.CreateCustomConfigIdempotent | cli/Valet/DnsMasq.php:56-65 | creating the fragment again for the same domain changes nothing |
| Dns.DnsMasq.ManageDnsmasqManually | cli/Valet/DnsMasq.php:72-83 | logs the grep, and the sed, stop, pkill, start and restart only when its output is truthy |
| Dns.ManualCommandsText | cli/Valet/DnsMasq.php:72-83 | the exact text of the handoff: `grep '^dns=dnsmasq' /etc/NetworkManager/NetworkManager.conf`, followed only for a truthy grep output by the five commands of `Dns.HandOverText` |
| Dns.HandOverText | cli/Valet/DnsMasq.php:77-81 | the five commands are, in order, the sed that comments out `dns=` in NetworkManager.conf, the NetworkManager stop, `sudo pkill dnsmasq`, the NetworkManager start and the dnsmasq restart, word for word |
| Dns.DnsMasq.CopyExampleConfig | cli/Valet/DnsMasq.php:90-98 | the primary configuration is copied from `exampleConfigPath` only when it does not exist |
| Dns.SeedOnlyWhenMissing | cli/Valet/DnsMasq.php:90-98 | an existing primary configuration is never touched; no other path changes; a missing one appears exactly when a regular file exists at the example path, with that file's contents |
| Dns.DnsMasq.AppendCustomConfigImport | cli/Valet/DnsMasq.php:107-115 | the import line is appended only when the path is not already mentioned |
| Dns.AppendImportEffect | cli/Valet/DnsMasq.php:107-115 | when mentioned nothing changes; otherwise the primary configuration is its old text followed by the import line; no other path changes; either way the path is then mentioned |
| Dns.ImportedAfterAppend | cli/Valet/DnsMasq.php:107-115 | after the append, the path is mentioned |
| Dns.AppendImportIdempotent | cli/Valet/DnsMasq.php:107-115 | appending twice is appending once |
| Dns.DnsMasq.CustomConfigIsBeingImported | cli/Valet/DnsMasq.php:124-127 | true exactly when the path is a substring of the primary configuration |
| Dns.DnsMasq.UpdateDomain | cli/Valet/DnsMasq.php:137-142 | the old domain is ignored; the new state is that of installing the new domain |
| Dns.CustomConfigPath | cli/Valet/DnsMasq.php:149-152 | the fragment is an entry directly under the Valet home, and it is `/etc/dnsmasq.conf` exactly when the home is `/etc` |
| FileSystem.ScanDir | cli/Valet/Site.php:34 | returns every entry of the directory exactly once |
| FileSystem.EntriesMembership | cli/Valet/Site.php:34 | a name is an entry exactly when it is non-empty, contains no '/', and `dir/name` exists |
| FileSystem.RealPath | cli/Valet/Site.php:35 | a path resolves exactly when `file_exists` holds for it, and what it resolves to is stored |

## Left out

- `pruneLinks` and `logs` in Site.php are not modelled. They belong to other commands: link pruning and log collection.
- `link` registers the Sites directory with the configuration (`prependPath`). The configuration is not part of this model.
- `user()` and file ownership are not modelled: the "as user" writes are ordinary writes.
- `realpath` resolves a single level of symbolic link. It does no canonicalisation of `.`, `..` or repeated slashes.
- `scandir` order is left open. This holds for `Sites.Site.Host`, `Sites.Site.Secured` and `Sites.Site.ResecureForNewDomain`, whose contracts hold for some listing of the directory, not for the sorted one.
- A failing command is not modelled: commands always succeed and their output is not recorded. The one output the core reads, the grep in `manageDnsmasqManually`, is a parameter.
- The effect of the openssl and `security` commands is reduced to the files they write and the common name they add or remove in the trust store. A key's contents are opaque. The model keeps the source's use of macOS `security` as it is.
- The SecureCaddyfile stub contents and `get_config('systemd-caddy-fpm')` are values of `Sites.Env`. They are not read from disk.
- The `sed` edit of NetworkManager.conf is logged, but its effect on that file is not modelled.
- `Dns.DnsMasq.CopyExampleConfig` keeps the template's contents as a path. No claim is made about what the seeded configuration holds beyond what that path names.
- `ensureInstalled` and `restartService` are logged only. What the package manager does is not modelled.
- `unlink` on a directory, writes through symbolic links, and `ensureDirExists` creating missing parents are not modelled.
- The commented-out `createDomainResolver` and resolver-file unlink are not modelled.
- SiteProperties.SecuredNamesExact: holds only on a well-formed directory. For a host that contains an extension, `secured()` answers another name (see `SiteNames.StripInsideHostName`), so that host is missing from the answer.
- SiteProperties.CertificateIsSecured: holds only on a well-formed directory, for the same reason: a host such as `a.keyb` with a .crt is listed as `ab`.
- SiteProperties.SecuredNameHasCertificate: holds only on a well-formed directory. A mangled name such as `ab` has no .crt of its own.
- SiteProperties.ResecureRenamesSecuredHosts: holds only on a well-formed directory. Otherwise `resecureForNewDomain` tries to unsecure the mangled name, which has no .crt, so the artifacts of the real host stay; it then secures the renamed mangled name.
- SiteNames.RenameSuffix: holds only for an old domain without '.'. With a dotted old domain `str_replace` renames the first match of `.old`, which need not be the suffix (see `SiteNames.RenameDottedDomain`).
- SiteNames.RenameEveryOccurrence: holds only for an old domain without '.', for the same reason.
- `Strings.Dedup` compares names exactly. The collection's `unique()` used by `secured()` compares loosely, so numeric-looking names such as `10` and `1e1` would count as one there and as two here.
- `Sites.HasCertificate` tests that something is stored at the .crt path, so a dangling link there counts as a certificate. The `exists` guard of `unsecure` (cli/Valet/Site.php:239) follows links and would skip it. Certificates are files written by openssl, so the model does not tell a dangling .crt link apart.
- `Get`, `Put`, `Append` and `Copy` in the filesystem do not follow a symbolic link stored at `/etc/dnsmasq.conf` or at the fragment path.
- The log holds commands by their arguments. `CommandLine.Line` gives the exact text of each, and `CommandLine.ShellLines` the text of a whole log, package and service calls having none; the `...Text` lemmas state that text for every command the core issues.

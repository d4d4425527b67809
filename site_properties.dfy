/** What Site's operations guarantee, stated over the After functions that
    specify its methods. */
module SiteProperties {
  import opened Strings
  import opened FileSystem
  import opened CommandLine
  import opened Sites

  // ----- link and unlink -----

  /** After link(target, name), host(target) answers a Sites entry that
      resolves to target, and name is one such entry. */
  lemma LinkThenHost(w: World, home: string, target: string, name: string, listing: seq<string>)
    requires target in w.fs
    requires name != [] && '/' !in name
    requires IsListing(AfterLink(w, home, target, name).fs, SitesPath(home), listing)
    ensures var fs := AfterLink(w, home, target, name).fs;
      && name in listing
      && LinksTo(fs, home, name, target)
      && HostName(fs, home, listing, target) in listing
      && LinksTo(fs, home, HostName(fs, home, listing, target), target)
  {
    var fs := AfterLink(w, home, target, name).fs;
    EntriesMembership(fs, SitesPath(home), name);
    assert RealPath(fs, SitesPath(home) + "/" + name) == Some(target);
  }

  /** unlink(name) removes the link when file_exists finds it, and nothing
      else; a dangling link is left for pruneLinks. */
  lemma UnlinkRemovesLink(w: World, home: string, name: string)
    ensures var p, w' := SitesPath(home) + "/" + name, AfterUnlink(w, home, name);
      && (Exists(w.fs, p) ==> p !in w'.fs)
      && (!Exists(w.fs, p) ==> w'.fs == w.fs)
      && (forall q :: q != p ==> (q in w'.fs <==> q in w.fs) && (q in w'.fs ==> w'.fs[q] == w.fs[q]))
      && w'.trusted == w.trusted && w'.log == w.log
  {
  }

  /** Linking then unlinking the same name leaves only the Sites directory
      behind when the target exists; a link to a missing target is dangling,
      so unlink leaves it in place. */
  lemma LinkThenUnlink(w: World, home: string, target: string, name: string)
    ensures var p, linked := SitesPath(home) + "/" + name, AfterLink(w, home, target, name).fs;
      AfterUnlink(AfterLink(w, home, target, name), home, name).fs ==
        if target in linked then EnsureDir(w.fs, SitesPath(home)) - {p} else linked
  {
    var p := SitesPath(home) + "/" + name;
    assert p != SitesPath(home) by {
      assert |p| > |SitesPath(home)|;
    }
  }

  // ----- unsecure -----

  /** unsecure(url) is guarded on the .crt alone: without it nothing changes,
      even when the key or the signing request exist; with it exactly the
      four artifacts go, one delete-certificate command is issued and one
      trust entry for url is dropped. */
  lemma UnsecureEffect(w: World, home: string, url: string)
    ensures var w' := AfterUnsecure(w, home, url);
      if !HasCertificate(w.fs, home, url) then w' == w
      else
        && w'.fs.Keys == w.fs.Keys - Artifacts(home, url)
        && (forall p :: p in w'.fs ==> w'.fs[p] == w.fs[p])
        && w'.trusted == w.trusted - multiset{url}
        && w'.log == w.log + [Run(DeleteCertificate(url))]
  {
  }

  /** A second unsecure changes nothing: the .crt it is guarded on is gone. */
  lemma UnsecureIdempotent(w: World, home: string, url: string)
    ensures AfterUnsecure(AfterUnsecure(w, home, url), home, url) == AfterUnsecure(w, home, url)
  {
  }

  // ----- createCertificate -----

  /** createCertificate(url) issues genrsa, req and x509 as the user, then the
      trust-store add as root, in that order; it leaves a key, a signing
      request and a certificate for url and adds one trust entry for url. */
  lemma CreateCertificateEffect(w: World, home: string, url: string)
    ensures var w' := AfterCreateCertificate(w, home, url);
      && w'.log == w.log + CertificatePipeline(home, url)
      && w'.fs == w.fs[KeyPath(home, url) := File("")][CsrPath(home, url) := File(url)][CrtPath(home, url) := File(url)]
      && w'.trusted == w.trusted + multiset{url}
  {
    ArtifactsDistinct(home, url);
  }

  // ----- secure -----

  /** The keys secure(url) leaves: the old ones, the Certificates directory
      and the four artifacts of url. */
  lemma SecureKeys(w: World, env: Env, url: string)
    ensures forall p :: p in AfterSecure(w, env, url).fs <==>
      p in w.fs || p == CertificatesPath(env.home) || p in Artifacts(env.home, url)
  {
    ArtifactsDistinct(env.home, url);
  }

  /** secure(url) in terms of the state unsecure(url) leaves: the
      Certificates directory is ensured, the certificate files and then the
      Caddy fragment are written, the pipeline is logged and url is trusted. */
  lemma SecureState(w: World, env: Env, url: string)
    ensures var home, u := env.home, AfterUnsecure(w, env.home, url);
      var w' := AfterSecure(w, env, url);
      && w'.fs == EnsureDir(u.fs, CertificatesPath(home))[KeyPath(home, url) := File("")][CsrPath(home, url) := File(url)]
                    [CrtPath(home, url) := File(url)][CaddyPath(home, url) := File(BuildSecureCaddyfile(env, url))]
      && w'.trusted == u.trusted + multiset{url}
      && w'.log == u.log + CertificatePipeline(home, url)
  {
    var u := AfterUnsecure(w, env.home, url);
    var w2 := u.(fs := EnsureDir(u.fs, CertificatesPath(env.home)));
    CreateCertificateEffect(w2, env.home, url);
  }

  /** secure(url): unsecure first, then the certificate pipeline; afterwards
      the three certificate files and the Caddy fragment exist with their
      contents, the Certificates directory exists, every other path is as
      before, and the trust store holds url once more than unsecure left. */
  lemma {:induction false} SecureEffect(w: World, env: Env, url: string)
    ensures var w' := AfterSecure(w, env, url);
      var home, hadCrt := env.home, HasCertificate(w.fs, env.home, url);
      && w'.log == w.log + (if hadCrt then [Run(DeleteCertificate(url))] else []) + CertificatePipeline(home, url)
      && w'.fs[KeyPath(home, url)] == File("")
      && w'.fs[CsrPath(home, url)] == File(url)
      && w'.fs[CrtPath(home, url)] == File(url)
      && w'.fs[CaddyPath(home, url)] == File(BuildSecureCaddyfile(env, url))
      && CertificatesPath(home) in w'.fs
      && (forall p :: p in w.fs && p !in Artifacts(home, url) ==> p in w'.fs && w'.fs[p] == w.fs[p])
      && w'.trusted == (if hadCrt then w.trusted - multiset{url} else w.trusted) + multiset{url}
  {
    var home, hadCrt := env.home, HasCertificate(w.fs, env.home, url);
    var A := Artifacts(home, url);
    var key, csr, crt, caddy := KeyPath(home, url), CsrPath(home, url), CrtPath(home, url), CaddyPath(home, url);
    var u := AfterUnsecure(w, home, url);
    var e := EnsureDir(u.fs, CertificatesPath(home));
    var w' := AfterSecure(w, env, url);
    assert w'.fs == e[key := File("")][csr := File(url)][crt := File(url)][caddy := File(BuildSecureCaddyfile(env, url))]
        && w'.trusted == u.trusted + multiset{url}
        && w'.log == u.log + CertificatePipeline(home, url) by {
      SecureState(w, env, url);
    }
    assert u.log == w.log + (if hadCrt then [Run(DeleteCertificate(url))] else [])
        && u.trusted == (if hadCrt then w.trusted - multiset{url} else w.trusted);
    assert w'.fs[key] == File("") && w'.fs[csr] == File(url) && w'.fs[crt] == File(url)
        && CertificatesPath(home) in w'.fs by {
      ArtifactsDistinct(home, url);
    }
    assert w.fs - A == u.fs - A by {
      if hadCrt {
        UnlinkFour(w.fs, caddy, key, csr, crt);
      }
    }
    forall p | p in w.fs && p !in A
      ensures p in w'.fs && w'.fs[p] == w.fs[p]
    {
      assert p in u.fs - A;
    }
  }

  /** Securing twice leaves the same files and the same trust store as
      securing once: the second unsecure removes exactly what the first
      secure created and the second secure recreates it. */
  lemma {:induction false} SecureIdempotent(w: World, env: Env, url: string)
    ensures AfterSecure(AfterSecure(w, env, url), env, url).fs == AfterSecure(w, env, url).fs
    ensures AfterSecure(AfterSecure(w, env, url), env, url).trusted == AfterSecure(w, env, url).trusted
  {
    var home := env.home;
    var A := Artifacts(home, url);
    var w1 := AfterSecure(w, env, url);
    var u1 := AfterUnsecure(w1, home, url);
    SecureState(w, env, url);
    SecureState(w1, env, url);
    ArtifactsDistinct(home, url);
    assert HasCertificate(w1.fs, home, url) && CertificatesPath(home) in w1.fs;
    UnlinkFour(w1.fs, CaddyPath(home, url), KeyPath(home, url), CsrPath(home, url), CrtPath(home, url));
    assert u1.fs == w1.fs - A;
    assert EnsureDir(u1.fs, CertificatesPath(home)) == u1.fs;
    var e := EnsureDir(AfterUnsecure(w, home, url).fs, CertificatesPath(home));
    RewriteRemoved(e, A, KeyPath(home, url), CsrPath(home, url), CrtPath(home, url), CaddyPath(home, url),
                   File(""), File(url), File(url), File(BuildSecureCaddyfile(env, url)));
  }

  /** unsecure undoes secure: afterwards no artifact of url is left (not
      even a key or signing request secure found without a .crt), the
      Certificates directory exists, every other path is as before, and the
      trust store is the one unsecure alone leaves. */
  lemma {:induction false} UnsecureUndoesSecure(w: World, env: Env, url: string)
    ensures var w2 := AfterUnsecure(AfterSecure(w, env, url), env.home, url);
      && w2.fs == EnsureDir(w.fs - Artifacts(env.home, url), CertificatesPath(env.home))
      && w2.trusted == AfterUnsecure(w, env.home, url).trusted
  {
    var home := env.home;
    var A := Artifacts(home, url);
    var key, csr, crt, caddy := KeyPath(home, url), CsrPath(home, url), CrtPath(home, url), CaddyPath(home, url);
    var u := AfterUnsecure(w, home, url);
    var e := EnsureDir(u.fs, CertificatesPath(home));
    var w1 := AfterSecure(w, env, url);
    var w2 := AfterUnsecure(w1, home, url);
    assert u.fs - A == w.fs - A by {
      if HasCertificate(w.fs, home, url) {
        UnlinkFour(w.fs, caddy, key, csr, crt);
      }
    }
    assert w1.fs == e[key := File("")][csr := File(url)][crt := File(url)][caddy := File(BuildSecureCaddyfile(env, url))]
        && w1.trusted == u.trusted + multiset{url} by {
      SecureState(w, env, url);
    }
    assert w2.fs == w1.fs - A && w2.trusted == w1.trusted - multiset{url} by {
      ArtifactsDistinct(home, url);
      assert HasCertificate(w1.fs, home, url);
      UnlinkFour(w1.fs, caddy, key, csr, crt);
    }
    assert w1.fs - A == e - A by {
      WritesThenRemove(e, A, key, csr, crt, caddy, File(""), File(url), File(url), File(BuildSecureCaddyfile(env, url)));
    }
    assert e - A == EnsureDir(u.fs - A, CertificatesPath(home)) by {
      ArtifactsDistinct(home, url);
      EnsureDirThenRemove(u.fs, CertificatesPath(home), A);
    }
  }

  // ----- The trust store follows the certificates -----

  /** One trust entry for every host whose .crt exists, none for any other. */
  ghost predicate TrustConsistent(w: World, home: string)
  {
    forall x :: w.trusted[x] == if HasCertificate(w.fs, home, x) then 1 else 0
  }

  lemma CrtPathOfOther(home: string, url: string, x: string)
    requires x != url
    ensures CrtPath(home, x) !in Artifacts(home, url)
    ensures CrtPath(home, x) != CertificatesPath(home)
  {
    ArtifactsDisjoint(home, x, url);
    NotAnArtifact(home, x, "");
  }

  lemma {:induction false} UnsecureKeepsTrustConsistent(w: World, home: string, url: string)
    requires TrustConsistent(w, home)
    ensures TrustConsistent(AfterUnsecure(w, home, url), home)
  {
    var w' := AfterUnsecure(w, home, url);
    UnsecureEffect(w, home, url);
    forall x
      ensures w'.trusted[x] == if HasCertificate(w'.fs, home, x) then 1 else 0
    {
      if x != url {
        CrtPathOfOther(home, url, x);
      }
    }
  }

  /** secure keeps the trust store consistent and leaves exactly one trust
      entry for url, however many times it is called. */
  lemma {:induction false} SecureKeepsTrustConsistent(w: World, env: Env, url: string)
    requires TrustConsistent(w, env.home)
    ensures TrustConsistent(AfterSecure(w, env, url), env.home)
    ensures AfterSecure(w, env, url).trusted[url] == 1
  {
    var home := env.home;
    var w' := AfterSecure(w, env, url);
    SecureEffect(w, env, url);
    SecureKeys(w, env, url);
    forall x
      ensures w'.trusted[x] == if HasCertificate(w'.fs, home, x) then 1 else 0
    {
      if x != url {
        CrtPathOfOther(home, url, x);
      }
    }
  }

  lemma {:induction false} LinkKeepsTrustConsistent(w: World, home: string, target: string, name: string)
    requires TrustConsistent(w, home)
    ensures TrustConsistent(AfterLink(w, home, target, name), home)
  {
    var w' := AfterLink(w, home, target, name);
    forall x
      ensures w'.trusted[x] == if HasCertificate(w'.fs, home, x) then 1 else 0
    {
      NotAnArtifact(home, x, name);
    }
  }

  lemma {:induction false} UnlinkKeepsTrustConsistent(w: World, home: string, name: string)
    requires TrustConsistent(w, home)
    ensures TrustConsistent(AfterUnlink(w, home, name), home)
  {
    var w' := AfterUnlink(w, home, name);
    forall x
      ensures w'.trusted[x] == if HasCertificate(w'.fs, home, x) then 1 else 0
    {
      NotAnArtifact(home, x, name);
    }
  }

  // ----- Sequences of unsecure and secure -----

  /** p is an artifact of a host in urls whose .crt exists in fs: unsecuring
      urls in turn, starting from fs, removes p. */
  predicate Doomed(fs: Tree, home: string, urls: seq<string>, p: string)
  {
    var x := OwnerOf(home, p);
    x in urls && p in Artifacts(home, x) && HasCertificate(fs, home, x)
  }

  /** An artifact of url is Doomed exactly when url is listed and its .crt
      exists. */
  lemma DoomedArtifact(fs: Tree, home: string, urls: seq<string>, url: string, p: string)
    requires p in Artifacts(home, url)
    ensures Doomed(fs, home, urls, p) <==> url in urls && HasCertificate(fs, home, url)
  {
    ArtifactOwner(home, url);
  }

  /** Unsecuring urls in turn removes exactly the Doomed paths and changes no
      other path. */
  lemma {:induction false} UnsecureAllEffect(w: World, home: string, urls: seq<string>)
    ensures var r := AfterUnsecureAll(w, home, urls);
      && (forall p :: p in r.fs <==> p in w.fs && !Doomed(w.fs, home, urls, p))
      && (forall p :: p in r.fs ==> r.fs[p] == w.fs[p])
    decreases |urls|
  {
    if urls != [] {
      var init, last := urls[..|urls| - 1], urls[|urls| - 1];
      assert urls == init + [last];
      var r0 := AfterUnsecureAll(w, home, init);
      var r := AfterUnsecureAll(w, home, urls);
      assert r == AfterUnsecure(r0, home, last);
      UnsecureAllEffect(w, home, init);
      UnsecureEffect(r0, home, last);
      ArtifactOwner(home, last);
      forall p
        ensures p in r.fs <==> p in w.fs && !Doomed(w.fs, home, urls, p)
      {
        var x := OwnerOf(home, p);
        if x == last && p in Artifacts(home, x) && HasCertificate(w.fs, home, x) {
          if !HasCertificate(r0.fs, home, last) {
            DoomedArtifact(w.fs, home, init, last, CrtPath(home, last));
          }
        }
      }
    }
  }

  /** Securing urls in turn keeps every path, adds the Certificates directory
      (when there is a url) and the artifacts of every url, and nothing else. */
  lemma {:induction false} SecureAllKeys(w: World, env: Env, urls: seq<string>)
    ensures forall p :: p in AfterSecureAll(w, env, urls).fs <==>
      || p in w.fs
      || (urls != [] && p == CertificatesPath(env.home))
      || (OwnerOf(env.home, p) in urls && p in Artifacts(env.home, OwnerOf(env.home, p)))
    decreases |urls|
  {
    if urls != [] {
      var init, last := urls[..|urls| - 1], urls[|urls| - 1];
      assert urls == init + [last];
      var r0 := AfterSecureAll(w, env, init);
      SecureAllKeys(w, env, init);
      SecureKeys(r0, env, last);
      ArtifactOwner(env.home, last);
    }
  }

  lemma {:induction false} UnsecureAllKeepsTrustConsistent(w: World, home: string, urls: seq<string>)
    requires TrustConsistent(w, home)
    ensures TrustConsistent(AfterUnsecureAll(w, home, urls), home)
    decreases |urls|
  {
    if urls != [] {
      UnsecureAllKeepsTrustConsistent(w, home, urls[..|urls| - 1]);
      UnsecureKeepsTrustConsistent(AfterUnsecureAll(w, home, urls[..|urls| - 1]), home, urls[|urls| - 1]);
    }
  }

  lemma {:induction false} SecureAllKeepsTrustConsistent(w: World, env: Env, urls: seq<string>)
    requires TrustConsistent(w, env.home)
    ensures TrustConsistent(AfterSecureAll(w, env, urls), env.home)
    decreases |urls|
  {
    if urls != [] {
      SecureAllKeepsTrustConsistent(w, env, urls[..|urls| - 1]);
      SecureKeepsTrustConsistent(AfterSecureAll(w, env, urls[..|urls| - 1]), env, urls[|urls| - 1]);
    }
  }

  // ----- resecureForNewDomain -----

  /** Given a snapshot that lists exactly the hosts whose .crt exists, the
      hosts holding a .crt after resecuring are exactly the renamed snapshot,
      and an old host that is not also a new one keeps no artifact. */
  lemma {:induction false} ResecureRenamesCertificates(w: World, env: Env, snapshot: seq<string>, oldDomain: string, domain: string)
    requires Exists(w.fs, CertificatesPath(env.home))
    requires forall x :: HasCertificate(w.fs, env.home, x) <==> x in snapshot
    ensures var w', image := AfterResecure(w, env, snapshot, oldDomain, domain), RenamedAll(snapshot, oldDomain, domain);
      && (forall x :: HasCertificate(w'.fs, env.home, x) <==> x in image)
      && (forall x, p :: x in snapshot && x !in image && p in Artifacts(env.home, x) ==> p !in w'.fs)
  {
    var home := env.home;
    var image := RenamedAll(snapshot, oldDomain, domain);
    var u := AfterUnsecureAll(w, home, snapshot);
    var w' := AfterResecure(w, env, snapshot, oldDomain, domain);
    assert w' == AfterSecureAll(u, env, image);
    UnsecureAllEffect(w, home, snapshot);
    SecureAllKeys(u, env, image);
    forall x
      ensures HasCertificate(w'.fs, home, x) <==> x in image
    {
      ArtifactOwner(home, x);
      NotAnArtifact(home, x, "");
      DoomedArtifact(w.fs, home, snapshot, x, CrtPath(home, x));
    }
    forall x, p | x in snapshot && x !in image && p in Artifacts(home, x)
      ensures p !in w'.fs
    {
      ArtifactOwner(home, x);
      NotAnArtifact(home, x, "");
      DoomedArtifact(w.fs, home, snapshot, x, p);
    }
  }

  /** With the trust store following the certificates before, it follows
      them after: one trust entry for each renamed host and none for any
      other. */
  lemma ResecureTrust(w: World, env: Env, snapshot: seq<string>, oldDomain: string, domain: string)
    requires Exists(w.fs, CertificatesPath(env.home))
    requires forall x :: HasCertificate(w.fs, env.home, x) <==> x in snapshot
    requires TrustConsistent(w, env.home)
    ensures var w' := AfterResecure(w, env, snapshot, oldDomain, domain);
      forall x :: w'.trusted[x] == if x in RenamedAll(snapshot, oldDomain, domain) then 1 else 0
  {
    var u := AfterUnsecureAll(w, env.home, snapshot);
    UnsecureAllKeepsTrustConsistent(w, env.home, snapshot);
    SecureAllKeepsTrustConsistent(u, env, RenamedAll(snapshot, oldDomain, domain));
    ResecureRenamesCertificates(w, env, snapshot, oldDomain, domain);
  }

  // ----- the command log of resecureForNewDomain -----

  /** The key paths of the genrsa commands of a log, in order. */
  function GeneratedKeys(log: seq<Command>): seq<string>
  {
    if log == [] then []
    else
      var c := log[|log| - 1];
      GeneratedKeys(log[..|log| - 1]) + (if c.RunAsUser? && c.cmd.GenerateKey? then [c.cmd.keyPath] else [])
  }

  lemma GeneratedKeysOne(c: Command)
    ensures GeneratedKeys([c]) == if c.RunAsUser? && c.cmd.GenerateKey? then [c.cmd.keyPath] else []
  {
    assert [c][..0] == [];
  }

  lemma {:induction false} GeneratedKeysAppend(a: seq<Command>, b: seq<Command>)
    ensures GeneratedKeys(a + b) == GeneratedKeys(a) + GeneratedKeys(b)
    decreases |b|
  {
    if b == [] {
      assert a + b == a;
    } else {
      var init, c := b[..|b| - 1], b[|b| - 1];
      assert (a + b)[..|a + b| - 1] == a + init;
      assert (a + b)[|a + b| - 1] == c;
      GeneratedKeysAppend(a, init);
    }
  }

  /** What unsecure(url) adds to the log. */
  lemma UnsecureLog(w: World, home: string, url: string)
    ensures AfterUnsecure(w, home, url).log ==
      w.log + if HasCertificate(w.fs, home, url) then [Run(DeleteCertificate(url))] else []
  {
  }

  /** A log whose tail after base holds only delete-certificate commands
      for hosts of urls keeps that shape when one more such command, or
      none, is appended. */
  lemma DeletesAppended(base: seq<Command>, l0: seq<Command>, urls: seq<string>, last: string, added: seq<Command>)
    requires base <= l0
    requires forall i :: |base| <= i < |l0| ==> l0[i].Run? && l0[i].cmd.DeleteCertificate? && l0[i].cmd.url in urls
    requires GeneratedKeys(l0[|base|..]) == []
    requires added == [] || added == [Run(DeleteCertificate(last))]
    ensures var l := l0 + added;
      && base <= l
      && (forall i :: |base| <= i < |l| ==> l[i].Run? && l[i].cmd.DeleteCertificate? && l[i].cmd.url in urls + [last])
      && GeneratedKeys(l[|base|..]) == []
  {
    var l := l0 + added;
    assert l[|base|..] == l0[|base|..] + added;
    GeneratedKeysAppend(l0[|base|..], added);
    if added != [] {
      GeneratedKeysOne(added[0]);
    }
    forall i | |base| <= i < |l|
      ensures l[i].Run? && l[i].cmd.DeleteCertificate? && l[i].cmd.url in urls + [last]
    {
      if i < |l0| {
        assert l[i] == l0[i];
      }
    }
  }

  /** The unsecure pass only appends delete-certificate commands, each for a
      host of urls, and generates no key. */
  lemma {:induction false} UnsecureAllLog(w: World, home: string, urls: seq<string>)
    ensures w.log <= AfterUnsecureAll(w, home, urls).log
    ensures var l := AfterUnsecureAll(w, home, urls).log;
      && (forall i :: |w.log| <= i < |l| ==> l[i].Run? && l[i].cmd.DeleteCertificate? && l[i].cmd.url in urls)
      && GeneratedKeys(l[|w.log|..]) == []
    decreases |urls|
  {
    if urls != [] {
      var init, last := urls[..|urls| - 1], urls[|urls| - 1];
      var r0 := AfterUnsecureAll(w, home, init);
      UnsecureAllLog(w, home, init);
      var added := if HasCertificate(r0.fs, home, last) then [Run(DeleteCertificate(last))] else [];
      assert AfterUnsecureAll(w, home, urls).log == r0.log + added by {
        UnsecureLog(r0, home, last);
      }
      assert urls == init + [last];
      DeletesAppended(w.log, r0.log, init, last, added);
    }
  }

  /** Of the pipeline's commands only the first generates a key. */
  lemma PipelineGeneratesOneKey(home: string, url: string)
    ensures GeneratedKeys(CertificatePipeline(home, url)) == [KeyPath(home, url)]
  {
    var pipeline := CertificatePipeline(home, url);
    assert pipeline == [pipeline[0]] + [pipeline[1]] + [pipeline[2]] + [pipeline[3]];
    GeneratedKeysAppend([pipeline[0]] + [pipeline[1]] + [pipeline[2]], [pipeline[3]]);
    GeneratedKeysAppend([pipeline[0]] + [pipeline[1]], [pipeline[2]]);
    GeneratedKeysAppend([pipeline[0]], [pipeline[1]]);
    GeneratedKeysOne(pipeline[0]);
    GeneratedKeysOne(pipeline[1]);
    GeneratedKeysOne(pipeline[2]);
    GeneratedKeysOne(pipeline[3]);
  }

  /** The commands secure(url) issues on a filesystem: the
      delete-certificate of its unsecure step when a .crt is present, then
      the certificate pipeline. */
  function SecureCommands(fs: Tree, home: string, url: string): seq<Command>
  {
    (if HasCertificate(fs, home, url) then [Run(DeleteCertificate(url))] else []) + CertificatePipeline(home, url)
  }

  lemma PipelineAfterUnsecure(w: World, env: Env, url: string)
    ensures AfterSecure(w, env, url).log == AfterUnsecure(w, env.home, url).log + CertificatePipeline(env.home, url)
  {
    var w1 := AfterUnsecure(w, env.home, url);
    var w2 := w1.(fs := EnsureDir(w1.fs, CertificatesPath(env.home)));
    var w3 := AfterCreateCertificate(w2, env.home, url);
    assert w3.log == w1.log + CertificatePipeline(env.home, url);
    assert AfterSecure(w, env, url).log == w3.log;
  }

  /** What secure(url) adds to the log. */
  lemma SecureLog(w: World, env: Env, url: string)
    ensures AfterSecure(w, env, url).log == w.log + SecureCommands(w.fs, env.home, url)
  {
    var reset := if HasCertificate(w.fs, env.home, url) then [Run(DeleteCertificate(url))] else [];
    var pipeline := CertificatePipeline(env.home, url);
    PipelineAfterUnsecure(w, env, url);
    UnsecureLog(w, env.home, url);
    assert (w.log + reset) + pipeline == w.log + (reset + pipeline);
  }

  /** secure(url) generates exactly one key, url's. */
  lemma SecureCommandsKey(fs: Tree, home: string, url: string)
    ensures GeneratedKeys(SecureCommands(fs, home, url)) == [KeyPath(home, url)]
  {
    var reset := if HasCertificate(fs, home, url) then [Run(DeleteCertificate(url))] else [];
    if reset != [] {
      GeneratedKeysOne(reset[0]);
    }
    PipelineGeneratesOneKey(home, url);
    GeneratedKeysAppend(reset, CertificatePipeline(home, url));
  }

  /** Appending a log piece that generates the key of the last url extends
      the generated keys of the others by that key. */
  lemma KeysAppended(home: string, base: seq<Command>, l0: seq<Command>, urls: seq<string>, rest: seq<Command>)
    requires base <= l0 && urls != []
    requires var keys, init := GeneratedKeys(l0[|base|..]), urls[..|urls| - 1];
      |keys| == |init| && forall i :: 0 <= i < |init| ==> keys[i] == KeyPath(home, init[i])
    requires GeneratedKeys(rest) == [KeyPath(home, urls[|urls| - 1])]
    ensures base <= l0 + rest
    ensures var keys := GeneratedKeys((l0 + rest)[|base|..]);
      |keys| == |urls| && forall i :: 0 <= i < |urls| ==> keys[i] == KeyPath(home, urls[i])
  {
    assert (l0 + rest)[|base|..] == l0[|base|..] + rest;
    GeneratedKeysAppend(l0[|base|..], rest);
  }

  /** The secure pass generates one key per url, in the order of urls:
      each secure(url) generates url's key and no other. */
  lemma {:induction false} SecureAllLog(w: World, env: Env, urls: seq<string>)
    ensures w.log <= AfterSecureAll(w, env, urls).log
    ensures var keys := GeneratedKeys(AfterSecureAll(w, env, urls).log[|w.log|..]);
      && |keys| == |urls|
      && (forall i :: 0 <= i < |urls| ==> keys[i] == KeyPath(env.home, urls[i]))
    decreases |urls|
  {
    if urls != [] {
      var init, last := urls[..|urls| - 1], urls[|urls| - 1];
      var r0 := AfterSecureAll(w, env, init);
      SecureAllLog(w, env, init);
      var added := SecureCommands(r0.fs, env.home, last);
      assert AfterSecureAll(w, env, urls).log == r0.log + added by {
        SecureLog(r0, env, last);
      }
      SecureCommandsKey(r0.fs, env.home, last);
      KeysAppended(env.home, w.log, r0.log, urls, added);
    }
  }

  /** A log made of a base, a tail of delete-certificate commands that
      generates no key, and a piece generating the given keys: the keys the
      whole tail generates are those of the piece. */
  lemma DeletesThenKeys(base: seq<Command>, mid: seq<Command>, l: seq<Command>, urls: seq<string>, keys: seq<string>)
    requires base <= mid <= l
    requires forall i :: |base| <= i < |mid| ==> mid[i].Run? && mid[i].cmd.DeleteCertificate? && mid[i].cmd.url in urls
    requires GeneratedKeys(mid[|base|..]) == []
    requires GeneratedKeys(l[|mid|..]) == keys
    ensures forall i :: |base| <= i < |mid| ==> l[i].Run? && l[i].cmd.DeleteCertificate? && l[i].cmd.url in urls
    ensures GeneratedKeys(l[|base|..]) == keys
  {
    assert l[|base|..] == mid[|base|..] + l[|mid|..];
    GeneratedKeysAppend(mid[|base|..], l[|mid|..]);
    forall i | |base| <= i < |mid|
      ensures l[i] == mid[i]
    {
    }
  }

  /** resecureForNewDomain's log: after what was issued before come the
      unsecure pass, only delete-certificate commands for snapshot hosts,
      and then the secure pass; no key is generated before the secure pass
      begins, and the keys it generates name the renamed hosts in snapshot
      order. */
  lemma ResecureLogOrder(w: World, env: Env, snapshot: seq<string>, oldDomain: string, domain: string)
    requires Exists(w.fs, CertificatesPath(env.home))
    ensures var mid := AfterUnsecureAll(w, env.home, snapshot).log;
      var l := AfterResecure(w, env, snapshot, oldDomain, domain).log;
      var image := RenamedAll(snapshot, oldDomain, domain);
      && w.log <= mid <= l
      && (forall i :: |w.log| <= i < |mid| ==> l[i].Run? && l[i].cmd.DeleteCertificate? && l[i].cmd.url in snapshot)
      && GeneratedKeys(l[|w.log|..]) == GeneratedKeys(l[|mid|..])
      && |GeneratedKeys(l[|mid|..])| == |snapshot|
      && (forall i :: 0 <= i < |snapshot| ==> GeneratedKeys(l[|mid|..])[i] == KeyPath(env.home, image[i]))
  {
    var u := AfterUnsecureAll(w, env.home, snapshot);
    var image := RenamedAll(snapshot, oldDomain, domain);
    var l := AfterSecureAll(u, env, image).log;
    assert AfterResecure(w, env, snapshot, oldDomain, domain).log == l;
    UnsecureAllLog(w, env.home, snapshot);
    SecureAllLog(u, env, image);
    DeletesThenKeys(w.log, u.log, l, snapshot, GeneratedKeys(l[|u.log|..]));
  }

  // ----- secured() on well-formed certificate directories -----

  /** A host name that none of the three extensions occurs in, and that
      names a direct entry of a directory. */
  predicate Clean(u: string)
  {
    '/' !in u && !Contains(u, ".key") && !Contains(u, ".csr") && !Contains(u, ".crt")
  }

  predicate IsExtension(e: string)
  {
    e == ".key" || e == ".csr" || e == ".crt"
  }

  /** Removing a needle that starts with '.' from u + q, where u is free of
      it, leaves u and works on q alone. */
  lemma RemoveFromSuffix(u: string, q: string, f: string)
    requires IsExtension(f)
    requires !Contains(u, f)
    requires q == [] || q[0] == '.'
    ensures Replace(u + q, f, "") == u + Replace(q, f, "")
  {
    if q == [] {
      assert u + q == u;
      ReplaceAbsent(u, f, "");
    } else {
      assert f[1..] == f[1..4];
      NoStraddle(u, q, f);
      ReplaceSkipsPrefix(u, q, f, "");
    }
  }

  /** Stripping a clean name followed by one extension gives the name back. */
  lemma {:induction false} StripClean(u: string, e: string)
    requires Clean(u) && IsExtension(e)
    ensures StripExtensions(u + e) == u
  {
    var key := if e == ".key" then "" else e;
    var csr := if key == ".csr" then "" else key;
    var crt := if csr == ".crt" then "" else csr;
    assert Replace(e, ".key", "") == key;
    assert Replace(key, ".csr", "") == csr;
    assert Replace(csr, ".crt", "") == crt == "";
    RemoveFromSuffix(u, e, ".key");
    RemoveFromSuffix(u, key, ".csr");
    RemoveFromSuffix(u, csr, ".crt");
    assert u + "" == u;
  }

  /** Every entry of the Certificates directory is a clean host name with one
      extension whose .crt exists, and every .crt there belongs to a clean
      host name: what secure() alone produces. */
  ghost predicate WellFormedCertificates(fs: Tree, home: string)
  {
    && (forall n :: n in Entries(fs, CertificatesPath(home)) ==>
          |n| >= 4 && IsExtension(n[|n| - 4..]) && Clean(n[..|n| - 4]) && HasCertificate(fs, home, n[..|n| - 4]))
    && (forall x :: HasCertificate(fs, home, x) ==> Clean(x))
  }

  /** A well-formed entry strips to a host whose .crt exists. */
  lemma StrippedEntryHasCertificate(fs: Tree, home: string, n: string)
    requires WellFormedCertificates(fs, home)
    requires n in Entries(fs, CertificatesPath(home))
    ensures HasCertificate(fs, home, StripExtensions(n))
  {
    var u, e := n[..|n| - 4], n[|n| - 4..];
    assert Clean(u) && IsExtension(e) && HasCertificate(fs, home, u);
    assert n == u + e;
    StripClean(u, e);
  }

  lemma SecuredNameHasCertificate(fs: Tree, home: string, listing: seq<string>, x: string)
    requires IsListing(fs, CertificatesPath(home), listing)
    requires WellFormedCertificates(fs, home)
    requires x in SecuredNames(listing)
    ensures HasCertificate(fs, home, x)
  {
    var i :| 0 <= i < |listing| && StripExtensions(listing[i]) == x;
    StrippedEntryHasCertificate(fs, home, listing[i]);
  }

  lemma CertificateIsSecured(fs: Tree, home: string, listing: seq<string>, x: string)
    requires IsListing(fs, CertificatesPath(home), listing)
    requires WellFormedCertificates(fs, home)
    requires HasCertificate(fs, home, x)
    ensures x in SecuredNames(listing)
  {
    var c := CertificatesPath(home);
    var n := x + ".crt";
    assert Clean(x);
    assert '/' !in n;
    assert c + "/" + n == CrtPath(home, x);
    EntriesMembership(fs, c, n);
    var i :| 0 <= i < |listing| && listing[i] == n;
    StripClean(x, ".crt");
    assert StripExtensions(listing[i]) == x;
  }

  /** On a well-formed Certificates directory, secured() lists exactly the
      hosts whose .crt exists. */
  lemma SecuredNamesExact(fs: Tree, home: string, listing: seq<string>)
    requires IsListing(fs, CertificatesPath(home), listing)
    requires WellFormedCertificates(fs, home)
    ensures forall x :: x in SecuredNames(listing) <==> HasCertificate(fs, home, x)
  {
    forall x
      ensures x in SecuredNames(listing) <==> HasCertificate(fs, home, x)
    {
      if x in SecuredNames(listing) {
        SecuredNameHasCertificate(fs, home, listing, x);
      }
      if HasCertificate(fs, home, x) {
        CertificateIsSecured(fs, home, listing, x);
      }
    }
  }

  /** Under a well-formed Certificates directory, the hosts resecuring
      leaves with a .crt are exactly the renamed hosts secured() listed, and
      an old host that is not also a new one keeps no artifact. */
  lemma ResecureRenamesSecuredHosts(w: World, env: Env, listing: seq<string>, oldDomain: string, domain: string)
    requires Exists(w.fs, CertificatesPath(env.home))
    requires IsListing(w.fs, CertificatesPath(env.home), listing)
    requires WellFormedCertificates(w.fs, env.home)
    ensures var snapshot := SecuredNames(listing);
      var w', image := AfterResecure(w, env, snapshot, oldDomain, domain), RenamedAll(snapshot, oldDomain, domain);
      && (forall x :: HasCertificate(w'.fs, env.home, x) <==> x in image)
      && (forall x, p :: x in snapshot && x !in image && p in Artifacts(env.home, x) ==> p !in w'.fs)
  {
    SecuredNamesExact(w.fs, env.home, listing);
    ResecureRenamesCertificates(w, env, SecuredNames(listing), oldDomain, domain);
  }

  /** An entry of the Certificates directory that is an artifact of y is
      y followed by one extension. */
  lemma CertificateEntryOfArtifact(home: string, y: string, n: string)
    requires CertificatesPath(home) + "/" + n in Artifacts(home, y)
    ensures |n| >= 4 && n[..|n| - 4] == y && IsExtension(n[|n| - 4..])
  {
    var c := CertificatesPath(home) + "/";
    var p := c + n;
    assert p[|home| + 2] == 'e';
    assert CaddyPath(home, y)[|home| + 2] == 'a';
    assert p[|c|..] == n;
    if p == KeyPath(home, y) {
      assert KeyPath(home, y) == c + (y + ".key");
      assert n == y + ".key";
    } else if p == CsrPath(home, y) {
      assert CsrPath(home, y) == c + (y + ".csr");
      assert n == y + ".csr";
    } else {
      assert CrtPath(home, y) == c + (y + ".crt");
      assert n == y + ".crt";
    }
  }

  /** A host name followed by an extension names an artifact of that host. */
  lemma ArtifactOfEntry(home: string, v: string, e: string)
    requires IsExtension(e)
    ensures CertificatesPath(home) + "/" + (v + e) in Artifacts(home, v)
  {
    var c := CertificatesPath(home) + "/";
    if e == ".key" {
      assert c + (v + e) == KeyPath(home, v);
    } else if e == ".csr" {
      assert c + (v + e) == CsrPath(home, v);
    } else {
      assert c + (v + e) == CrtPath(home, v);
    }
  }

  /** One entry of the Certificates directory after resecuring, given the
      keys unsecuring (u) and then securing (fs') leave. */
  lemma ResecuredEntry(fs: Tree, u: Tree, fs': Tree, home: string, snapshot: seq<string>, image: seq<string>, n: string)
    requires forall x :: HasCertificate(fs, home, x) <==> x in snapshot
    requires forall m :: m in Entries(fs, CertificatesPath(home)) ==>
      |m| >= 4 && IsExtension(m[|m| - 4..]) && Clean(m[..|m| - 4]) && HasCertificate(fs, home, m[..|m| - 4])
    requires forall p :: p in u ==> p in fs && !Doomed(fs, home, snapshot, p)
    requires forall p :: p in fs' ==>
      || p in u
      || p == CertificatesPath(home)
      || (OwnerOf(home, p) in image && p in Artifacts(home, OwnerOf(home, p)))
    requires n in Entries(fs', CertificatesPath(home))
    ensures |n| >= 4 && n[..|n| - 4] in image && IsExtension(n[|n| - 4..])
  {
    var c := CertificatesPath(home);
    var p := c + "/" + n;
    assert p in fs' by {
      EntriesMembership(fs', c, n);
    }
    assert p != c by {
      assert |p| > |c|;
    }
    assert p !in u by {
      EntriesMembership(fs', c, n);
      EntriesMembership(fs, c, n);
      if n in Entries(fs, c) {
        var v, e := n[..|n| - 4], n[|n| - 4..];
        assert HasCertificate(fs, home, v) && IsExtension(e);
        assert n == v + e;
        ArtifactOfEntry(home, v, e);
        DoomedArtifact(fs, home, snapshot, v, p);
      }
    }
    var y := OwnerOf(home, p);
    assert y in image && p in Artifacts(home, y);
    CertificateEntryOfArtifact(home, y, n);
  }

  /** The Certificates directory after resecuring is well formed when the
      renamed hosts are clean, given the keys unsecuring (u) and then
      securing (fs') leave. */
  lemma ResecuredEntries(fs: Tree, u: Tree, fs': Tree, home: string, snapshot: seq<string>, image: seq<string>)
    requires forall x :: HasCertificate(fs, home, x) <==> x in snapshot
    requires forall m :: m in Entries(fs, CertificatesPath(home)) ==>
      |m| >= 4 && IsExtension(m[|m| - 4..]) && Clean(m[..|m| - 4]) && HasCertificate(fs, home, m[..|m| - 4])
    requires forall p :: p in u ==> p in fs && !Doomed(fs, home, snapshot, p)
    requires forall p :: p in fs' ==>
      || p in u
      || p == CertificatesPath(home)
      || (OwnerOf(home, p) in image && p in Artifacts(home, OwnerOf(home, p)))
    requires forall x :: HasCertificate(fs', home, x) <==> x in image
    requires forall y :: y in image ==> Clean(y)
    ensures WellFormedCertificates(fs', home)
  {
    forall n | n in Entries(fs', CertificatesPath(home))
      ensures |n| >= 4 && IsExtension(n[|n| - 4..]) && Clean(n[..|n| - 4]) && HasCertificate(fs', home, n[..|n| - 4])
    {
      ResecuredEntry(fs, u, fs', home, snapshot, image, n);
    }
  }

  /** The keys securing the renamed hosts leaves after unsecuring. */
  lemma ResecureSecureKeys(w: World, env: Env, snapshot: seq<string>, oldDomain: string, domain: string)
    requires Exists(w.fs, CertificatesPath(env.home))
    ensures var image := RenamedAll(snapshot, oldDomain, domain);
      var u := AfterUnsecureAll(w, env.home, snapshot).fs;
      forall p :: p in AfterResecure(w, env, snapshot, oldDomain, domain).fs ==>
        || p in u
        || p == CertificatesPath(env.home)
        || (OwnerOf(env.home, p) in image && p in Artifacts(env.home, OwnerOf(env.home, p)))
  {
    SecureAllKeys(AfterUnsecureAll(w, env.home, snapshot), env, RenamedAll(snapshot, oldDomain, domain));
  }

  /** When every renamed host is clean, resecuring leaves a well-formed
      Certificates directory, so a later secured() lists exactly the renamed
      hosts. */
  lemma ResecureKeepsWellFormed(w: World, env: Env, listing: seq<string>, oldDomain: string, domain: string)
    requires Exists(w.fs, CertificatesPath(env.home))
    requires IsListing(w.fs, CertificatesPath(env.home), listing)
    requires WellFormedCertificates(w.fs, env.home)
    requires forall y :: y in RenamedAll(SecuredNames(listing), oldDomain, domain) ==> Clean(y)
    ensures WellFormedCertificates(AfterResecure(w, env, SecuredNames(listing), oldDomain, domain).fs, env.home)
  {
    var home, snapshot := env.home, SecuredNames(listing);
    SecuredNamesExact(w.fs, home, listing);
    ResecuredWellFormed(w, env, snapshot, oldDomain, domain);
  }

  /** Resecuring a snapshot that lists exactly the hosts with a .crt keeps
      a well-formed Certificates directory well formed when the renamed
      hosts are clean. */
  lemma ResecuredWellFormed(w: World, env: Env, snapshot: seq<string>, oldDomain: string, domain: string)
    requires Exists(w.fs, CertificatesPath(env.home))
    requires forall x :: HasCertificate(w.fs, env.home, x) <==> x in snapshot
    requires WellFormedCertificates(w.fs, env.home)
    requires forall y :: y in RenamedAll(snapshot, oldDomain, domain) ==> Clean(y)
    ensures WellFormedCertificates(AfterResecure(w, env, snapshot, oldDomain, domain).fs, env.home)
  {
    var home := env.home;
    var image := RenamedAll(snapshot, oldDomain, domain);
    var u := AfterUnsecureAll(w, home, snapshot).fs;
    var fs' := AfterResecure(w, env, snapshot, oldDomain, domain).fs;
    assert forall x :: HasCertificate(fs', home, x) <==> x in image by {
      ResecureRenamesCertificates(w, env, snapshot, oldDomain, domain);
    }
    assert forall p :: p in u ==> p in w.fs && !Doomed(w.fs, home, snapshot, p) by {
      UnsecureAllEffect(w, home, snapshot);
    }
    assert forall p :: p in fs' ==>
      || p in u
      || p == CertificatesPath(home)
      || (OwnerOf(home, p) in image && p in Artifacts(home, OwnerOf(home, p))) by {
      ResecureSecureKeys(w, env, snapshot, oldDomain, domain);
    }
    ResecuredEntries(w.fs, u, fs', home, snapshot, image);
  }
}

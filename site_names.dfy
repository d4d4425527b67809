/** What Site's name handling guarantees: the order of secured(), the
    domain rename of resecureForNewDomain, the placeholders of the secure
    Caddyfile, and the answer of host(). */
module SiteNames {
  import opened Strings
  import opened FileSystem
  import opened CommandLine
  import opened Sites
  import opened SiteProperties

  // ----- secured() -----

  /** secured() lists each host in the order in which the first entry
      stripping to it appears in the listing. */
  lemma SecuredNamesKeepListingOrder(listing: seq<string>)
    ensures var r, stripped := SecuredNames(listing), StrippedAll(listing);
      forall i, j :: 0 <= i < j < |r| ==> FirstIndex(stripped, r[i]) < FirstIndex(stripped, r[j])
  {
    DedupKeepsFirstOccurrenceOrder(StrippedAll(listing));
  }

  /** The three files of one host strip to the same name, so secured() lists
      it once. */
  lemma {:induction false} OneHostListedOnce(v: string, listing: seq<string>)
    requires Clean(v)
    requires listing == [v + ".crt", v + ".csr", v + ".key"]
    ensures SecuredNames(listing) == [v]
  {
    StripClean(v, ".crt");
    StripClean(v, ".csr");
    StripClean(v, ".key");
    assert StrippedAll(listing) == [v, v, v];
    assert Dedup([v]) == [v] by {
      assert [v][..0] == [];
    }
    assert Dedup([v, v]) == [v] by {
      assert [v, v][..1] == [v];
    }
    assert Dedup([v, v, v]) == [v] by {
      assert [v, v, v][..2] == [v, v];
    }
  }

  /** The extensions are removed wherever they occur, not only at the end:
      the certificate of the host a.keyb is listed as ab. */
  lemma StripInsideHostName()
    ensures StripExtensions("a.keyb" + ".crt") == "ab"
  {
    var n, m := "a.keyb" + ".crt", "ab.crt";
    assert Replace(n, ".key", "") == m by {
      assert n == "a" + ".key" + "b.crt";
      assert !IsSubstring(".key", "b.crt") by {
        forall i | 0 <= i <= 1 ensures !OccursAt("b.crt", ".key", i) {
          if i == 0 {
            MismatchAt("b.crt", ".key", 0, 0);
          } else {
            MismatchAt("b.crt", ".key", 1, 1);
          }
        }
      }
      ReplaceOnce("a", ".key", "b.crt", "");
      assert "a" + "" + "b.crt" == m;
    }
    assert Replace(m, ".csr", "") == m by {
      assert !IsSubstring(".csr", m) by {
        forall i | 0 <= i <= 2 ensures !OccursAt(m, ".csr", i) {
          MismatchAt(m, ".csr", i, 2);
        }
      }
      ReplaceAbsent(m, ".csr", "");
    }
    assert Replace(m, ".crt", "") == "ab" by {
      assert m == "ab" + ".crt" + "";
      ReplaceOnce("ab", ".crt", "", "");
      assert "ab" + "" + "" == "ab";
    }
  }

  /** One differing character rules an occurrence out. */
  lemma MismatchAt(s: string, f: string, i: int, k: int)
    requires 0 <= i && 0 <= k < |f| && i + k < |s| && s[i + k] != f[k]
    ensures !OccursAt(s, f, i)
  {
  }

  // ----- the domain rename -----

  /** A host of the old domain moves to the new domain. */
  lemma RenameSuffix(v: string, oldDomain: string, domain: string)
    requires '.' !in oldDomain
    requires !IsSubstring("." + oldDomain, v)
    ensures Renamed(v + "." + oldDomain, oldDomain, domain) == v + "." + domain
  {
    var f := "." + oldDomain;
    assert f[1..] == oldDomain;
    NoStraddle(v, f, f);
    ReplaceSkipsPrefix(v, f, f, "." + domain);
    ReplaceAtStart([], f, "." + domain);
    assert f + [] == f;
    assert v + "." + oldDomain == v + f;
  }

  /** Every occurrence of the old domain is replaced, not only the final
      one: a host whose name repeats the domain has each copy renamed. */
  lemma RenameEveryOccurrence(v: string, oldDomain: string, domain: string)
    requires '.' !in oldDomain
    requires !IsSubstring("." + oldDomain, v)
    ensures Renamed(v + "." + oldDomain + "." + oldDomain, oldDomain, domain) == v + "." + domain + "." + domain
  {
    var f, t := "." + oldDomain, "." + domain;
    assert v + "." + oldDomain + "." + oldDomain == v + (f + f);
    assert v + "." + domain + "." + domain == v + (t + t);
    assert Replace(v + (f + f), f, t) == v + Replace(f + f, f, t) by {
      assert f[1..] == oldDomain;
      NoStraddle(v, f + f, f);
      ReplaceSkipsPrefix(v, f + f, f, t);
    }
    assert Replace(f + f, f, t) == t + t by {
      ReplaceAtStart(f, f, t);
      ReplaceWhole(f, t);
    }
  }

  /** With a dotted old domain the first match is renamed, not the suffix:
      q.a.a.a moves from a.a to q.new.a, not to q.a.new. */
  lemma RenameDottedDomain()
    ensures Renamed("q.a.a.a", "a.a", "new") == "q.new.a"
  {
    var f, t := "." + "a.a", "." + "new";
    assert f == ".a.a" && t == ".new";
    assert !OccursAt("q.a.a.a", f, 0) by {
      assert "q.a.a.a"[0] != f[0];
    }
    ReplaceCopiesFirst("q.a.a.a", f, t);
    assert "q.a.a.a"[1..] == f + ".a";
    ReplaceAtStart(".a", f, t);
    assert [ 'q' ] + (t + ".a") == "q.new.a";
  }

  // ----- the secure Caddyfile -----

  /** No placeholder repeats its first character, so an occurrence of one
      cannot start inside another occurrence of it. */
  lemma PlaceholdersLeadOnce()
    ensures "VALET_SITE"[0] !in "VALET_SITE"[1..] && "VALET_CERT"[0] !in "VALET_CERT"[1..]
    ensures "VALET_KEY"[0] !in "VALET_KEY"[1..] && "FPM_ADDRESS"[0] !in "FPM_ADDRESS"[1..]
  {
  }

  lemma ReplaceWhole(f: string, t: string)
    requires f != []
    ensures Replace(f, f, t) == t
  {
    ReplaceAtStart([], f, t);
    assert f + [] == f;
  }

  /** The certificate placeholder, wherever it stands in the stub, becomes
      the path of the .crt that createCertificate signs and trusts; the text
      around it is kept. */
  lemma CaddyfileCertificate(env: Env, url: string, a: string, b: string)
    requires env.secureCaddyStub == a + "VALET_CERT" + b
    requires !IsSubstring("VALET_SITE", env.secureCaddyStub)
    requires !IsSubstring("VALET_CERT", a) && !IsSubstring("VALET_CERT", b)
    requires var s := a + CrtPath(env.home, url) + b;
      !IsSubstring("VALET_KEY", s) && !IsSubstring("FPM_ADDRESS", s)
    ensures var r, crt, pipeline := BuildSecureCaddyfile(env, url), CrtPath(env.home, url), CertificatePipeline(env.home, url);
      r == a + crt + b && crt == pipeline[2].cmd.crtPath && crt == pipeline[3].cmd.crtPath
  {
    PlaceholdersLeadOnce();
    var crt := CrtPath(env.home, url);
    ReplaceAbsent(env.secureCaddyStub, "VALET_SITE", url);
    ReplaceOnce(a, "VALET_CERT", b, crt);
    ReplaceAbsent(a + crt + b, "VALET_KEY", KeyPath(env.home, url));
    ReplaceAbsent(a + crt + b, "FPM_ADDRESS", env.fpmAddress);
  }

  /** The key placeholder, wherever it stands in the stub, becomes the path
      of the key that createCertificate generates and signs with. */
  lemma CaddyfileKey(env: Env, url: string, a: string, b: string)
    requires env.secureCaddyStub == a + "VALET_KEY" + b
    requires !IsSubstring("VALET_SITE", env.secureCaddyStub) && !IsSubstring("VALET_CERT", env.secureCaddyStub)
    requires !IsSubstring("VALET_KEY", a) && !IsSubstring("VALET_KEY", b)
    requires !IsSubstring("FPM_ADDRESS", a + KeyPath(env.home, url) + b)
    ensures var r, key, pipeline := BuildSecureCaddyfile(env, url), KeyPath(env.home, url), CertificatePipeline(env.home, url);
      r == a + key + b && key == pipeline[0].cmd.keyPath && key == pipeline[2].cmd.keyPath
  {
    PlaceholdersLeadOnce();
    var key := KeyPath(env.home, url);
    ReplaceAbsent(env.secureCaddyStub, "VALET_SITE", url);
    ReplaceAbsent(env.secureCaddyStub, "VALET_CERT", CrtPath(env.home, url));
    ReplaceOnce(a, "VALET_KEY", b, key);
    ReplaceAbsent(a + key + b, "FPM_ADDRESS", env.fpmAddress);
  }

  /** The site placeholder, wherever it stands in the stub, becomes the host
      name the certificate is issued for. */
  lemma CaddyfileSite(env: Env, url: string, a: string, b: string)
    requires env.secureCaddyStub == a + "VALET_SITE" + b
    requires !IsSubstring("VALET_SITE", a) && !IsSubstring("VALET_SITE", b)
    requires var s := a + url + b;
      !IsSubstring("VALET_CERT", s) && !IsSubstring("VALET_KEY", s) && !IsSubstring("FPM_ADDRESS", s)
    ensures var r := BuildSecureCaddyfile(env, url);
      r == a + url + b && url == CertificatePipeline(env.home, url)[1].cmd.url
  {
    PlaceholdersLeadOnce();
    var s := a + url + b;
    ReplaceOnce(a, "VALET_SITE", b, url);
    ReplaceAbsent(s, "VALET_CERT", CrtPath(env.home, url));
    ReplaceAbsent(s, "VALET_KEY", KeyPath(env.home, url));
    ReplaceAbsent(s, "FPM_ADDRESS", env.fpmAddress);
  }

  /** The FPM placeholder, wherever it stands in the stub, becomes the
      configured FPM address. */
  lemma CaddyfileFpmAddress(env: Env, url: string, a: string, b: string)
    requires env.secureCaddyStub == a + "FPM_ADDRESS" + b
    requires !IsSubstring("VALET_SITE", env.secureCaddyStub) && !IsSubstring("VALET_CERT", env.secureCaddyStub)
    requires !IsSubstring("VALET_KEY", env.secureCaddyStub)
    requires !IsSubstring("FPM_ADDRESS", a) && !IsSubstring("FPM_ADDRESS", b)
    ensures BuildSecureCaddyfile(env, url) == a + env.fpmAddress + b
  {
    PlaceholdersLeadOnce();
    ReplaceAbsent(env.secureCaddyStub, "VALET_SITE", url);
    ReplaceAbsent(env.secureCaddyStub, "VALET_CERT", CrtPath(env.home, url));
    ReplaceAbsent(env.secureCaddyStub, "VALET_KEY", KeyPath(env.home, url));
    ReplaceOnce(a, "FPM_ADDRESS", b, env.fpmAddress);
  }

  /** A stub holding each placeholder once, in the order of the array, gets
      all four substituted, with the host, the .crt and key paths that
      createCertificate writes, and the FPM address; the text between them
      is kept. No placeholder may occur elsewhere, nor be formed where a
      substituted value meets the text around it. */
  lemma CaddyfileAllPlaceholders(env: Env, url: string, a: string, b: string, c: string, d: string, e: string)
    requires env.secureCaddyStub == a + "VALET_SITE" + (b + "VALET_CERT" + (c + "VALET_KEY" + (d + "FPM_ADDRESS" + e)))
    requires !IsSubstring("VALET_SITE", a) && !IsSubstring("VALET_SITE", b + "VALET_CERT" + (c + "VALET_KEY" + (d + "FPM_ADDRESS" + e)))
    requires !IsSubstring("VALET_CERT", a + url + b) && !IsSubstring("VALET_CERT", c + "VALET_KEY" + (d + "FPM_ADDRESS" + e))
    requires !IsSubstring("VALET_KEY", a + url + b + CrtPath(env.home, url) + c) && !IsSubstring("VALET_KEY", d + "FPM_ADDRESS" + e)
    requires !IsSubstring("FPM_ADDRESS", a + url + b + CrtPath(env.home, url) + c + KeyPath(env.home, url) + d)
    requires !IsSubstring("FPM_ADDRESS", e)
    ensures BuildSecureCaddyfile(env, url) ==
      a + url + b + CrtPath(env.home, url) + c + KeyPath(env.home, url) + d + env.fpmAddress + e
  {
    var crt, key, fpm := CrtPath(env.home, url), KeyPath(env.home, url), env.fpmAddress;
    PlaceholdersLeadOnce();
    var t3 := d + "FPM_ADDRESS" + e;
    var t2 := c + "VALET_KEY" + t3;
    var t1 := b + "VALET_CERT" + t2;
    var p2 := a + url + b;
    var p3 := p2 + crt + c;
    var p4 := p3 + key + d;
    var s1 := Replace(env.secureCaddyStub, "VALET_SITE", url);
    assert s1 == p2 + "VALET_CERT" + t2 by {
      ReplaceOnce(a, "VALET_SITE", t1, url);
      Regroup(a, url, b, "VALET_CERT", t2);
    }
    var s2 := Replace(s1, "VALET_CERT", crt);
    assert s2 == p3 + "VALET_KEY" + t3 by {
      ReplaceOnce(p2, "VALET_CERT", t2, crt);
      Regroup(p2, crt, c, "VALET_KEY", t3);
    }
    var s3 := Replace(s2, "VALET_KEY", key);
    assert s3 == p4 + "FPM_ADDRESS" + e by {
      ReplaceOnce(p3, "VALET_KEY", t3, key);
      Regroup(p3, key, d, "FPM_ADDRESS", e);
    }
    assert Replace(s3, "FPM_ADDRESS", fpm) == p4 + fpm + e by {
      ReplaceOnce(p4, "FPM_ADDRESS", e, fpm);
    }
  }

  /** A stub in which the host placeholder is the only one, however often it
      occurs, gets every occurrence replaced by the host: pieces free of the
      placeholder, joined by it, become the same pieces joined by the host,
      as long as the result forms none of the other three placeholders. */
  lemma CaddyfileEverySite(env: Env, url: string, pieces: seq<string>)
    requires env.secureCaddyStub == Join(pieces, "VALET_SITE")
    requires forall k :: 0 <= k < |pieces| ==> !IsSubstring("VALET_SITE", pieces[k])
    requires !IsSubstring("VALET_CERT", Join(pieces, url)) && !IsSubstring("VALET_KEY", Join(pieces, url))
    requires !IsSubstring("FPM_ADDRESS", Join(pieces, url))
    ensures BuildSecureCaddyfile(env, url) == Join(pieces, url)
  {
    PlaceholdersLeadOnce();
    ReplaceEvery(pieces, "VALET_SITE", url);
    ReplaceAbsent(Join(pieces, url), "VALET_CERT", CrtPath(env.home, url));
    ReplaceAbsent(Join(pieces, url), "VALET_KEY", KeyPath(env.home, url));
    ReplaceAbsent(Join(pieces, url), "FPM_ADDRESS", env.fpmAddress);
  }

  /** Regrouping a concatenation of five parts. */
  lemma Regroup(p: string, v: string, x: string, f: string, t: string)
    ensures p + v + (x + f + t) == p + v + x + f + t
  {
  }

  /** The substitutions run in order: a host name that itself contains the
      certificate placeholder has it replaced by the certificate path. */
  lemma CaddyfileSubstitutesInOrder(env: Env, url: string)
    requires env.secureCaddyStub == "VALET_SITE"
    requires url == "VALET_CERT"
    requires !IsSubstring("VALET_KEY", CrtPath(env.home, url)) && !IsSubstring("FPM_ADDRESS", CrtPath(env.home, url))
    ensures BuildSecureCaddyfile(env, url) == CrtPath(env.home, url)
  {
    ReplaceWhole("VALET_SITE", url);
    ReplaceWhole("VALET_CERT", CrtPath(env.home, url));
    ReplaceAbsent(CrtPath(env.home, url), "VALET_KEY", KeyPath(env.home, url));
    ReplaceAbsent(CrtPath(env.home, url), "FPM_ADDRESS", env.fpmAddress);
  }

  // ----- host() -----

  /** host() answers the entry at the least index of the listing that
      resolves to the path. */
  lemma {:induction false} HostIsFirstMatch(fs: Tree, home: string, listing: seq<string>, path: string, k: int)
    requires NoDups(listing)
    requires 0 <= k < |listing| && LinksTo(fs, home, listing[k], path)
    requires forall j :: 0 <= j < k ==> !LinksTo(fs, home, listing[j], path)
    ensures HostName(fs, home, listing, path) == listing[k]
  {
    var r := FirstLinkTo(fs, home, listing, path);
    assert r.Some?;
    var m := FirstIndex(listing, r.value);
    assert listing[m] == r.value;
    assert m == k;
  }

  /** Without a resolving entry, host() answers the last path component. */
  lemma HostFallsBackToBasename(fs: Tree, home: string, listing: seq<string>, dir: string, name: string)
    requires name != [] && '/' !in name
    requires forall n :: n in listing ==> !LinksTo(fs, home, n, dir + "/" + name)
    ensures HostName(fs, home, listing, dir + "/" + name) == name
  {
    BasenameOfEntry(dir, name);
  }
}

/** Shell commands and service calls, recorded by what was issued and in which
    privilege context; their effect on the system is not modelled here. */
module CommandLine {

  /** The shell commands the core issues, by their arguments. Line gives the
      exact text of each. */
  datatype Shell =
    | GenerateKey(keyPath: string)                                  // openssl genrsa
    | SigningRequest(url: string, keyPath: string, csrPath: string)  // openssl req
    | SelfSign(csrPath: string, keyPath: string, crtPath: string)    // openssl x509
    | AddTrustedCert(crtPath: string)                               // security add-trusted-cert
    | DeleteCertificate(url: string)                                // security delete-certificate
    | FindNetworkManagerDns                                         // grep for dns=dnsmasq
    | DisableNetworkManagerDns                                      // sed comments it out
    | StopNetworkManager
    | KillDnsmasq
    | StartNetworkManager
    | RestartDnsmasq

  datatype Command =
    | Run(cmd: Shell)                    // CommandLine::run, in the invoking (root) context
    | RunAsUser(cmd: Shell)              // CommandLine::runAsUser, as the invoking non-root user
    | EnsureInstalled(package: string)   // Linux::ensureInstalled
    | RestartService(service: string)    // Linux::restartService

  /** The command line handed to the shell. Each text is its own function,
      so that reasoning about one command does not bring in the others. */
  function Line(c: Shell): string
  {
    match c
    case GenerateKey(key) => GenrsaLine(key)
    case SigningRequest(url, key, csr) => ReqLine(url, key, csr)
    case SelfSign(csr, key, crt) => X509Line(csr, key, crt)
    case AddTrustedCert(crt) => AddTrustedCertLine(crt)
    case DeleteCertificate(url) => DeleteCertificateLine(url)
    case FindNetworkManagerDns => "grep '^dns=dnsmasq' /etc/NetworkManager/NetworkManager.conf"
    case DisableNetworkManagerDns => "sudo sed -i 's/^dns=/#dns=/g' /etc/NetworkManager/NetworkManager.conf"
    case StopNetworkManager => "sudo service network-manager stop"
    case KillDnsmasq => "sudo pkill dnsmasq"
    case StartNetworkManager => "sudo service network-manager start"
    case RestartDnsmasq => "sudo service dnsmasq restart"
  }

  function GenrsaLine(key: string): string
  {
    "openssl genrsa -out " + key + " 2048"
  }

  function ReqLine(url: string, key: string, csr: string): string
  {
    "openssl req -new -subj \"/C=/ST=/O=/localityName=/commonName=" + url
      + "/organizationalUnitName=/emailAddress=/\" -key " + key + " -out " + csr + " -passin pass:"
  }

  function X509Line(csr: string, key: string, crt: string): string
  {
    "openssl x509 -req -days 365 -in " + csr + " -signkey " + key + " -out " + crt
  }

  function AddTrustedCertLine(crt: string): string
  {
    "sudo security add-trusted-cert -d -r trustRoot -k /Library/Keychains/System.keychain " + crt
  }

  function DeleteCertificateLine(url: string): string
  {
    "sudo security delete-certificate -c \"" + url + "\" -t"
  }

  /** The shell text of the commands issued through the command line, in
      order; package and service calls carry no shell text. */
  function ShellLines(cs: seq<Command>): (r: seq<string>)
    ensures |r| <= |cs|
  {
    if cs == [] then []
    else (if cs[0].Run? || cs[0].RunAsUser? then [Line(cs[0].cmd)] else []) + ShellLines(cs[1..])
  }

  /** The text of two runs of commands is the text of the first run followed
      by that of the second. */
  lemma {:induction false} ShellLinesConcat(a: seq<Command>, b: seq<Command>)
    ensures ShellLines(a + b) == ShellLines(a) + ShellLines(b)
    decreases |a|
  {
    if a != [] {
      assert (a + b)[1..] == a[1..] + b;
      ShellLinesConcat(a[1..], b);
    } else {
      assert a + b == b;
    }
  }
}

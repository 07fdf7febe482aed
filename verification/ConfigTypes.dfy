/** The configuration a server runs on (struct Location and struct ServerConfig, includes/ConfigManager.hpp:13-62). */
module ConfigTypes {

  datatype Location = Location(
    location: string, allowedMethods: seq<string>, root: string, autoindex: bool, index: string,
    isRedirect: bool, redirectUrl: string, isRedirectPermanent: bool, redirectCode: int,
    useCgi: bool, cgiPath: string, uploadStore: string,
    hasReturn: bool, returnCode: int, returnMessage: string)

  function NewLocation(path: string): Location {
    Location(path, ["GET", "POST", "DELETE"], "", false, "index.html", false, "", false, 0, false, "", "", false, 0, "")
  }

  datatype ServerConfig = ServerConfig(
    port: nat, host: string, serverNames: seq<string>, errorPages: map<int, string>,
    clientMaxBodySize: nat, locations: seq<Location>)

  const SIZE_KB: nat := 1024
  const SIZE_MB: nat := 1024 * SIZE_KB
  const SIZE_GB: nat := 1024 * SIZE_MB

  const NewServer: ServerConfig := ServerConfig(80, "0.0.0.0", ["localhost"], map[], SIZE_MB, [])
}

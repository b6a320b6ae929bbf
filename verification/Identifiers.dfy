// The identifiers of a request: which of its many carriers wins.
module Identifiers {
  import opened Prelude
  import opened Text
  import opened AuthHeader

  datatype Identifiers = Identifiers(token: string, deviceID: string, client: string, device: string, version: string)

  // The headers and query parameters the parser looks at; "" for absent.  A snake or
  // pascal field is the query parameter in that spelling.
  datatype Request = Request(authorization: string, embyAuthorization: string, embyToken: string,
                             mediaBrowserToken: string,
                             apiKey: string, apiKeySnake: string,
                             deviceId: string, deviceIdSnake: string, deviceIdPascal: string)

  function Part(parts: Option<map<string, string>>, key: string): string {
    if parts.Some? && key in parts.value then parts.value[key] else ""
  }

  // A descriptive field.  The second authorization header's counts only when the
  // first one lacks a token or a device.
  function Described(a: Option<map<string, string>>, b: Option<map<string, string>>, field: string): string {
    Or(Part(a, field), if Part(a, "Token") == "" || Part(a, "DeviceId") == "" then Part(b, field) else "")
  }

  method ApplyParts(start: Identifiers, parts: map<string, string>) returns (id: Identifiers)
    ensures var p := Some(parts);
      id == Identifiers(Or(Part(p, "Token"), start.token), Or(Part(p, "DeviceId"), start.deviceID),
                        Or(Part(p, "Client"), start.client), Or(Part(p, "Device"), start.device),
                        Or(Part(p, "Version"), start.version))
  {
    id := start;
    if Part(Some(parts), "Token") != "" {
      id := id.(token := parts["Token"]);
    }
    if Part(Some(parts), "DeviceId") != "" {
      id := id.(deviceID := parts["DeviceId"]);
    }
    if Part(Some(parts), "Client") != "" {
      id := id.(client := parts["Client"]);
    }
    if Part(Some(parts), "Device") != "" {
      id := id.(device := parts["Device"]);
    }
    if Part(Some(parts), "Version") != "" {
      id := id.(version := parts["Version"]);
    }
  }

  // Token and DeviceId come from the first carrier that has one; a and b are the
  // parsed Authorization and X-Emby-Authorization headers.
  ghost predicate Chosen(r: Request, a: Option<map<string, string>>, b: Option<map<string, string>>, id: Identifiers) {
    && id.token == Or(Part(a, "Token"), Or(Part(b, "Token"), Or(r.embyToken, Or(r.mediaBrowserToken,
                                                                               Or(r.apiKey, r.apiKeySnake)))))
    && id.deviceID == Or(Part(a, "DeviceId"), Or(Part(b, "DeviceId"), Or(r.deviceId,
                                                                        Or(r.deviceIdSnake, r.deviceIdPascal))))
    && id.client == Described(a, b, "Client")
    && id.device == Described(a, b, "Device")
    && id.version == Described(a, b, "Version")
  }

  // The X-Emby-Authorization header fills only what is still empty.
  method FillFromSecond(start: Identifiers, b: Option<map<string, string>>) returns (id: Identifiers)
    ensures id == Identifiers(Or(start.token, Part(b, "Token")), Or(start.deviceID, Part(b, "DeviceId")),
                              Or(start.client, Part(b, "Client")), Or(start.device, Part(b, "Device")),
                              Or(start.version, Part(b, "Version")))
  {
    id := start;
    if b.Some? {
      if id.token == "" {
        id := id.(token := Part(b, "Token"));
      }
      if id.deviceID == "" {
        id := id.(deviceID := Part(b, "DeviceId"));
      }
      if id.client == "" {
        id := id.(client := Part(b, "Client"));
      }
      if id.device == "" {
        id := id.(device := Part(b, "Device"));
      }
      if id.version == "" {
        id := id.(version := Part(b, "Version"));
      }
    }
  }

  method Choose(r: Request, a: Option<map<string, string>>, b: Option<map<string, string>>) returns (id: Identifiers)
    ensures Chosen(r, a, b, id)
  {
    id := Identifiers("", "", "", "", "");
    if a.Some? {
      id := ApplyParts(id, a.value);
    }
    if id.token == "" || id.deviceID == "" {
      id := FillFromSecond(id, b);
    }
    if id.token == "" {
      id := id.(token := Or(r.embyToken, r.mediaBrowserToken));
    }
    if id.token == "" {
      id := id.(token := Or(r.apiKey, r.apiKeySnake));
    }
    if id.deviceID == "" {
      id := id.(deviceID := Or(r.deviceId, Or(r.deviceIdSnake, r.deviceIdPascal)));
    }
  }

  method ParseMediaBrowser(header: string) returns (r: Option<map<string, string>>)
    ensures r == MediaBrowser(header)
  {
    var h := TrimSpace(header);
    var sp := IndexByte(h, ' ');
    if h == "" || sp == |h| {
      return None;
    }
    if !EqualFold(h[..sp], "mediabrowser") && !EqualFold(h[..sp], "emby") {
      return None;
    }
    r := ParseNamedValues(h[sp + 1..]);
  }

  method Parse(r: Request) returns (id: Identifiers)
    ensures Chosen(r, MediaBrowser(r.authorization), MediaBrowser(r.embyAuthorization), id)
  {
    var a := ParseMediaBrowser(r.authorization);
    var b := ParseMediaBrowser(r.embyAuthorization);
    id := Choose(r, a, b);
  }
}

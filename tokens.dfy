/** token_refresher: the stored bearer-token record, the "needs refresh" decision, and
    how a token-endpoint response becomes a new record that is written back field by
    field. The config file and the endpoint's answer are values passed in; the clock is
    an integer number of seconds. */
module TokenRefresher {
  import opened Common

  /** A JSON scalar as it can appear in the stored record or the endpoint's answer. */
  datatype Value = Null | Bool(b: bool) | Int(n: int) | Str(s: string)

  /** Python truthiness of a scalar. */
  predicate Falsy(v: Value) {
    v == Null || v == Bool(false) || v == Int(0) || v == Str("")
  }

  /** A top-level entry of config.json: a JSON object, or any other value. */
  datatype Entry = Record(fields: map<string, Value>) | Scalar(v: Value)

  /** config.json on disk: missing, unreadable as a JSON object, or an object. */
  datatype ConfigFile = Absent | Corrupt | Json(top: map<string, Entry>)

  /** The top-level key of the token record. */
  const SectionKey := "Aalexhealth_token"

  /** Keys of the in-memory token dict. */
  const BearerKey := "bearer_token"
  const RefreshKey := "refresh_token"
  const ExpiresKey := "expires_at"
  const ClientIdKey := "client_id"
  const ClientSecretKey := "client_id_secret"

  /** Keys of the stored record; the misspelling of the refresh-token key is the
      file format's own. */
  const StoredBearer := "access_bearer_token"
  const StoredRefresh := "access_refersh_bearer_token"
  const StoredExpires := "token_expires_at"
  const StoredClientId := "client_id"
  const StoredClientSecret := "client_id_secret"

  /** (token key, stored key) for every field load_tokens reads. */
  const LoadMap: seq<(string, string)> := [
    (BearerKey, StoredBearer), (RefreshKey, StoredRefresh), (ExpiresKey, StoredExpires),
    (ClientIdKey, StoredClientId), (ClientSecretKey, StoredClientSecret)]

  /** (token key, stored key) for every field save_tokens may write. */
  const SaveMap: seq<(string, string)> := [
    (BearerKey, StoredBearer), (RefreshKey, StoredRefresh), (ExpiresKey, StoredExpires)]

  /** dict.get: the value, or None when the key is missing. */
  function Get(m: map<string, Value>, k: string): Value {
    if k in m then m[k] else Null
  }

  /** The file holds a top-level object with the token record as an object. */
  predicate HasSection(file: ConfigFile) {
    file.Json? && SectionKey in file.top && file.top[SectionKey].Record?
  }

  /** load_tokens: the five stored fields under their in-memory names, each None when
      missing; no record at all when the file is missing, unreadable, or lacks the
      token object. */
  function LoadTokens(file: ConfigFile): (r: Option<map<string, Value>>)
    ensures r.Some? <==> HasSection(file)
    ensures r.Some? ==> r.value.Keys == set p | p in LoadMap :: p.0
    ensures r.Some? ==> forall p :: p in LoadMap ==> r.value[p.0] == Get(file.top[SectionKey].fields, p.1)
  {
    if !HasSection(file) then None
    else
      var section := file.top[SectionKey].fields;
      Some(map[
        BearerKey := Get(section, StoredBearer),
        RefreshKey := Get(section, StoredRefresh),
        ExpiresKey := Get(section, StoredExpires),
        ClientIdKey := Get(section, StoredClientId),
        ClientSecretKey := Get(section, StoredClientSecret)])
  }

  /** The stored keys save_tokens writes for the given token dict. */
  function Written(tokens: map<string, Value>): (r: set<string>)
    ensures forall p :: p in SaveMap ==> (p.1 in r <==> p.0 in tokens)
    ensures r <= {StoredBearer, StoredRefresh, StoredExpires}
  {
    (if BearerKey in tokens then {StoredBearer} else {})
    + (if RefreshKey in tokens then {StoredRefresh} else {})
    + (if ExpiresKey in tokens then {StoredExpires} else {})
  }

  /** The token record after save_tokens: each of bearer_token, refresh_token and
      expires_at present in the dict is stored under its renamed key; every other field,
      including those the dict does not carry, is untouched. */
  function Updated(fields: map<string, Value>, tokens: map<string, Value>): (r: map<string, Value>)
    ensures r.Keys == fields.Keys + Written(tokens)
    ensures forall p :: p in SaveMap && p.0 in tokens ==> r[p.1] == tokens[p.0]
    ensures forall k :: k in fields && k !in Written(tokens) ==> r[k] == fields[k]
  {
    var withBearer := if BearerKey in tokens then fields[StoredBearer := tokens[BearerKey]] else fields;
    var withRefresh := if RefreshKey in tokens then withBearer[StoredRefresh := tokens[RefreshKey]] else withBearer;
    if ExpiresKey in tokens then withRefresh[StoredExpires := tokens[ExpiresKey]] else withRefresh
  }

  /** config.json after save_tokens. A missing file starts from an empty token record;
      an unreadable file, or one whose token record is missing or not an object, is left
      as it was (the write fails, or rewrites the same content); otherwise only the token
      record changes. */
  function SavedFile(file: ConfigFile, tokens: map<string, Value>): (r: ConfigFile)
    ensures !file.Absent? && !HasSection(file) ==> r == file
    ensures file.Absent? ==> HasSection(r) && r.top.Keys == {SectionKey}
    ensures file.Absent? ==> r.top[SectionKey].fields == Updated(map[], tokens)
    ensures HasSection(file) ==> HasSection(r) && r.top.Keys == file.top.Keys
    ensures HasSection(file) ==> r.top[SectionKey].fields == Updated(file.top[SectionKey].fields, tokens)
    ensures HasSection(file) ==> forall k :: k in file.top && k != SectionKey ==> r.top[k] == file.top[k]
  {
    match file
    case Absent => Json(map[SectionKey := Record(Updated(map[], tokens))])
    case Corrupt => file
    case Json(top) =>
      if HasSection(file) then Json(top[SectionKey := Record(Updated(top[SectionKey].fields, tokens))])
      else file
  }

  /** int() of a stored expires_at: integers as they are, True as 1, a string of decimal
      digits as its value; any other string fails the conversion. */
  function IntOf(v: Value): (r: Option<int>)
    ensures v.Int? ==> r == Some(v.n)
    ensures v.Str? && |v.s| > 0 && AllDigits(v.s) ==> r == Some(DecimalValue(v.s))
    ensures r.None? <==> v.Null? || (v.Str? && (|v.s| == 0 || !AllDigits(v.s)))
  {
    match v
    case Null => None
    case Bool(b) => Some(if b then 1 else 0)
    case Int(n) => Some(n)
    case Str(s) => if |s| > 0 && AllDigits(s) then Some(DecimalValue(s)) else None
  }

  predicate AllDigits(s: string) {
    forall i :: 0 <= i < |s| ==> '0' <= s[i] <= '9'
  }

  /** The value of a string of decimal digits. */
  function DecimalValue(s: string): (r: nat)
    requires AllDigits(s)
    ensures |s| > 0 && s[0] != '0' ==> r >= Power10(|s| - 1)
    ensures r < Power10(|s|)
    decreases |s|
  {
    if |s| == 0 then 0
    else
      assert AllDigits(s[..|s| - 1]);
      var d := (s[|s| - 1] as int) - ('0' as int);
      if |s| == 1 then d
      else DecimalValue(s[..|s| - 1]) * 10 + d
  }

  /** The decimal digits of n, without leading zeros: str(n). */
  function Digits(n: nat): (r: string)
    ensures |r| > 0 && AllDigits(r) && (|r| > 1 ==> r[0] != '0')
  {
    if n < 10 then [('0' as int + n) as char]
    else Digits(n / 10) + [('0' as int + n % 10) as char]
  }

  /** int(str(n)) == n. */
  lemma {:induction false} DecimalOfDigits(n: nat)
    ensures DecimalValue(Digits(n)) == n
  {
    if n >= 10 {
      var s := Digits(n);
      DecimalOfDigits(n / 10);
      assert s[..|s| - 1] == Digits(n / 10);
    }
  }

  /** str(int(s)) == s for a digit string without leading zeros. */
  lemma {:induction false} DigitsOfDecimal(s: string)
    requires |s| > 0 && AllDigits(s) && (|s| > 1 ==> s[0] != '0')
    ensures Digits(DecimalValue(s)) == s
    decreases |s|
  {
    if |s| > 1 {
      var front := s[..|s| - 1];
      assert AllDigits(front);
      DigitsOfDecimal(front);
      var d := (s[|s| - 1] as int) - ('0' as int);
      assert DecimalValue(s) == DecimalValue(front) * 10 + d;
      assert DecimalValue(front) >= 1;
      assert DecimalValue(s) / 10 == DecimalValue(front) && DecimalValue(s) % 10 == d;
      assert s == front + [s[|s| - 1]];
    }
  }

  function Power10(n: nat): (r: nat)
    ensures r >= 1
  {
    if n == 0 then 1 else 10 * Power10(n - 1)
  }

  /** Seconds before expiry at which a refresh is due. */
  const RefreshMargin := 300

  /** check_token_expiry on a loaded record: refresh when there is no record or no
      usable expiry, otherwise exactly when at most five minutes are left. None stands
      for the exception int() raises on a non-numeric string. */
  function NeedsRefresh(tokens: Option<map<string, Value>>, now: int): (r: Option<bool>)
    ensures tokens.None? ==> r == Some(true)
    ensures tokens.Some? && (ExpiresKey !in tokens.value || Falsy(tokens.value[ExpiresKey])) ==> r == Some(true)
    ensures tokens.Some? && ExpiresKey in tokens.value && tokens.value[ExpiresKey].Int? && tokens.value[ExpiresKey].n != 0 ==>
      r == Some(tokens.value[ExpiresKey].n - now <= RefreshMargin)
    ensures tokens.Some? && ExpiresKey in tokens.value && tokens.value[ExpiresKey].Str?
            && |tokens.value[ExpiresKey].s| > 0 && AllDigits(tokens.value[ExpiresKey].s) ==>
      r == Some(DecimalValue(tokens.value[ExpiresKey].s) - now <= RefreshMargin)
    ensures r.None? <==> (tokens.Some? && ExpiresKey in tokens.value && tokens.value[ExpiresKey].Str?
                          && |tokens.value[ExpiresKey].s| > 0 && !AllDigits(tokens.value[ExpiresKey].s))
  {
    if tokens.None? || |tokens.value| == 0 then Some(true)
    else if ExpiresKey !in tokens.value || Falsy(tokens.value[ExpiresKey]) then Some(true)
    else
      match IntOf(tokens.value[ExpiresKey])
      case None => None
      case Some(expiresAt) => Some(expiresAt - now <= RefreshMargin)
  }

  /** check_token_expiry: load the record, then decide. */
  function CheckTokenExpiry(file: ConfigFile, now: int): (r: Option<bool>)
    ensures !HasSection(file) ==> r == Some(true)
  {
    NeedsRefresh(LoadTokens(file), now)
  }

  /** What the token endpoint sent back, as far as it matters: the call raised, or a
      status code and a body that is not JSON, a JSON object, or other JSON. */
  datatype Body = NotJson | Object(m: map<string, Value>) | OtherJson
  datatype TokenResponse = RequestFailed | Response(status: int, body: Body)

  const StatusOk := 200
  /** expires_in when the endpoint leaves it out: two hours. */
  const DefaultExpiresIn := 7200

  /** expires_in as int(time.time()) + expires_in sees it: a missing key is the
      default, booleans add as 0 or 1, anything but a number makes the addition raise. */
  function ExpiresIn(body: map<string, Value>): (r: Option<int>)
    ensures "expires_in" !in body ==> r == Some(DefaultExpiresIn)
    ensures "expires_in" in body && body["expires_in"].Int? ==> r == Some(body["expires_in"].n)
    ensures r.None? <==> ("expires_in" in body && (body["expires_in"].Null? || body["expires_in"].Str?))
  {
    if "expires_in" !in body then Some(DefaultExpiresIn)
    else match body["expires_in"]
      case Int(n) => Some(n)
      case Bool(b) => Some(if b then 1 else 0)
      case _ => None
  }

  /** The token dict refresh_access_token builds from the endpoint's answer at clock
      reading `now`, or None when it returns None: no usable refresh token, a failed call,
      a status other than 200, a body that is not a JSON object, or an expires_in that
      cannot be added. */
  function TokensFromResponse(refreshToken: Value, response: TokenResponse, now: int): (r: Option<map<string, Value>>)
    ensures Falsy(refreshToken) ==> r.None?
    ensures response.RequestFailed? || response.status != StatusOk ==> r.None?
    ensures r.Some? <==> (!Falsy(refreshToken) && response.Response? && response.status == StatusOk
                          && response.body.Object? && ExpiresIn(response.body.m).Some?)
    ensures r.Some? ==> r.value.Keys == {BearerKey, RefreshKey, ExpiresKey}
    ensures r.Some? ==> r.value[BearerKey] == Get(response.body.m, "access_token")
    ensures r.Some? ==> r.value[ExpiresKey] == Int(now + ExpiresIn(response.body.m).value)
    ensures r.Some? && "refresh_token" !in response.body.m ==> r.value[RefreshKey] == refreshToken
    ensures r.Some? && "refresh_token" in response.body.m ==> r.value[RefreshKey] == response.body.m["refresh_token"]
  {
    if Falsy(refreshToken) then None
    else match response
      case RequestFailed => None
      case Response(status, body) =>
        if status != StatusOk || !body.Object? then None
        else match ExpiresIn(body.m)
          case None => None
          case Some(expiresIn) =>
            Some(map[
              BearerKey := Get(body.m, "access_token"),
              RefreshKey := if "refresh_token" in body.m then body.m["refresh_token"] else refreshToken,
              ExpiresKey := Int(now + expiresIn)])
  }

  /** config.json, written by save_tokens and refresh_access_token. */
  class ConfigStore {
    var file: ConfigFile

    constructor (initial: ConfigFile)
      ensures file == initial
    {
      file := initial;
    }

    /** save_tokens: read the record (or start from an empty one), overwrite the fields
        the dict carries, one key at a time, and write the file back. */
    method SaveTokens(tokens: map<string, Value>)
      modifies this
      ensures file == SavedFile(old(file), tokens)
    {
      var top: map<string, Entry>;
      match file {
        case Absent => top := map[SectionKey := Record(map[])];
        case Corrupt => return;
        case Json(t) => top := t;
      }
      if !(SectionKey in top && top[SectionKey].Record?) {
        return;
      }
      var fields := top[SectionKey].fields;
      if BearerKey in tokens {
        fields := fields[StoredBearer := tokens[BearerKey]];
      }
      if RefreshKey in tokens {
        fields := fields[StoredRefresh := tokens[RefreshKey]];
      }
      if ExpiresKey in tokens {
        fields := fields[StoredExpires := tokens[ExpiresKey]];
      }
      file := Json(top[SectionKey := Record(fields)]);
    }

    /** refresh_access_token with the endpoint's answer passed in: build the new token
        dict and save it; on any failure return None and leave the file alone. */
    method RefreshAccessToken(refreshToken: Value, response: TokenResponse, now: int)
      returns (r: Option<map<string, Value>>)
      modifies this
      ensures r == TokensFromResponse(refreshToken, response, now)
      ensures r.None? ==> file == old(file)
      ensures r.Some? ==> file == SavedFile(old(file), r.value)
    {
      r := TokensFromResponse(refreshToken, response, now);
      if r.Some? {
        SaveTokens(r.value);
      }
    }
  }

  /** Loading after saving gives back every field the dict carried, under its own name,
      and leaves the other loaded fields as they were (None for a file that was missing). */
  lemma SaveThenLoad(file: ConfigFile, tokens: map<string, Value>)
    requires file.Absent? || HasSection(file)
    ensures LoadTokens(SavedFile(file, tokens)).Some?
    ensures forall p :: p in SaveMap && p.0 in tokens ==>
      LoadTokens(SavedFile(file, tokens)).value[p.0] == tokens[p.0]
    ensures HasSection(file) ==> forall k :: k in LoadTokens(file).value && (k !in tokens || k in {ClientIdKey, ClientSecretKey}) ==>
      LoadTokens(SavedFile(file, tokens)).value[k] == LoadTokens(file).value[k]
    ensures file.Absent? ==> forall k :: k in LoadTokens(SavedFile(file, tokens)).value && (k !in tokens || k in {ClientIdKey, ClientSecretKey}) ==>
      LoadTokens(SavedFile(file, tokens)).value[k] == Null
  {
    var fields := if file.Absent? then map[] else file.top[SectionKey].fields;
    LoadedAfterUpdate(fields, tokens);
    if file.Absent? {
      assert forall p :: p in LoadMap ==> Get(fields, p.1) == Null;
    }
  }

  /** The field-level half of SaveThenLoad: reading the five stored keys of an updated
      record. */
  lemma LoadedAfterUpdate(fields: map<string, Value>, tokens: map<string, Value>)
    ensures forall p :: p in SaveMap && p.0 in tokens ==> Get(Updated(fields, tokens), p.1) == tokens[p.0]
    ensures forall p :: p in LoadMap && (p.0 !in tokens || p.0 in {ClientIdKey, ClientSecretKey}) ==>
      Get(Updated(fields, tokens), p.1) == Get(fields, p.1)
  {
    var u := Updated(fields, tokens);
    forall p | p in LoadMap && (p.0 !in tokens || p.0 in {ClientIdKey, ClientSecretKey})
      ensures Get(u, p.1) == Get(fields, p.1)
    {
      assert p.1 !in Written(tokens);
    }
  }

  /** A refresh that succeeds at `now` (a real clock reading) makes the check report the
      token as fresh exactly until five minutes before now + expires_in. */
  lemma RefreshThenCheck(file: ConfigFile, refreshToken: Value, response: TokenResponse, now: int, later: int)
    requires file.Absent? || HasSection(file)
    requires now >= 0
    requires TokensFromResponse(refreshToken, response, now).Some?
    requires ExpiresIn(response.body.m).value > 0
    ensures CheckTokenExpiry(SavedFile(file, TokensFromResponse(refreshToken, response, now).value), later)
      == Some(later >= now + ExpiresIn(response.body.m).value - RefreshMargin)
  {
    var tokens := TokensFromResponse(refreshToken, response, now).value;
    SaveThenLoad(file, tokens);
    assert (ExpiresKey, StoredExpires) in SaveMap;
  }
}

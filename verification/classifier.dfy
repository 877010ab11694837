/** Process classification: does a container run PHP-FPM (`is_php_fpm_container`,
    src/main.rs:129-152)? */
module Classifier {
  import opened Errors

  /** A JSON value as serde_json represents it; numbers keep their literal text. */
  datatype Json =
    | JNull
    | JBool(b: bool)
    | JNumber(literal: string)
    | JString(s: string)
    | JArray(items: seq<Json>)
    | JObject(members: seq<(string, Json)>)

  /** What `docker inspect <id> --format {{json .Config.Cmd}}` produced, after the
      trimmed output was handed to the JSON parser. */
  datatype InspectReply =
    | InspectSpawnFailed      // the command could not be executed
    | InspectStatusFailed     // it exited with a non-success status
    | InspectNotUtf8          // its standard output is not UTF-8
    | InspectNotJson          // its trimmed output is not a JSON document
    | InspectJson(cmd: Json)  // the parsed launch command

  /** The command token that marks a PHP-FPM container. */
  const PhpFpmMarker: string := "php-fpm"

  /** `Value::as_str`. */
  function AsStr(v: Json): (r: Option<string>)
    ensures r.Some? <==> v.JString?
    ensures r.Some? ==> v == JString(r.value)
  {
    if v.JString? then Some(v.s) else None
  }

  /** The predicate given to `any`: the token is a string equal to the marker. */
  predicate IsMarker(v: Json) {
    match AsStr(v)
    case None => false
    case Some(s) => s == PhpFpmMarker
  }

  /** `Iterator::any` over the command tokens, scanning from the front. */
  function AnyMarker(items: seq<Json>): (found: bool)
    ensures found <==> JString(PhpFpmMarker) in items
  {
    if items == [] then false
    else if IsMarker(items[0]) then true
    else
      assert items == [items[0]] + items[1..];
      AnyMarker(items[1..])
  }

  /** The launch command is an array holding the exact token "php-fpm". */
  function IsPhpFpmCommand(cmd: Json): (b: bool)
    ensures b <==> cmd.JArray? && exists i :: 0 <= i < |cmd.items| && cmd.items[i] == JString(PhpFpmMarker)
  {
    match cmd
    case JArray(items) => AnyMarker(items)
    case _ => false
  }

  /** `is_php_fpm_container`: a non-success inspect status classifies as "not PHP-FPM",
      while failing to run inspect, undecodable output and unparsable JSON are errors. */
  function Classify(reply: InspectReply): (r: Result<bool>)
    ensures r == Ok(true) <==> reply.InspectJson? && IsPhpFpmCommand(reply.cmd)
    ensures reply.InspectStatusFailed? ==> r == Ok(false)
    ensures r.Err? <==> reply.InspectSpawnFailed? || reply.InspectNotUtf8? || reply.InspectNotJson?
    ensures reply.InspectNotJson? ==> r == Err(InspectJsonParse)
  {
    match reply
    case InspectSpawnFailed => Err(InspectSpawn)
    case InspectStatusFailed => Ok(false)
    case InspectNotUtf8 => Err(InvalidUtf8)
    case InspectNotJson => Err(InspectJsonParse)
    case InspectJson(cmd) => Ok(IsPhpFpmCommand(cmd))
  }

  /** Marker exactness: a token that differs from "php-fpm" at all, a superstring such as
      "php-fpm-worker" or a prefix such as "php", never makes a command PHP-FPM; nor do
      tokens that are not strings. */
  lemma {:induction false} OnlyExactTokenMatches(prefix: seq<Json>, token: Json, suffix: seq<Json>)
    requires token != JString(PhpFpmMarker)
    ensures IsPhpFpmCommand(JArray(prefix + [token] + suffix)) == IsPhpFpmCommand(JArray(prefix + suffix))
  {
    var with := prefix + [token] + suffix;
    var without := prefix + suffix;
    if IsPhpFpmCommand(JArray(with)) {
      var i :| 0 <= i < |with| && with[i] == JString(PhpFpmMarker);
      if i < |prefix| {
        assert without[i] == with[i];
      } else {
        assert i > |prefix|;
        assert without[i - 1] == with[i];
      }
    }
    if IsPhpFpmCommand(JArray(without)) {
      var i :| 0 <= i < |without| && without[i] == JString(PhpFpmMarker);
      if i < |prefix| {
        assert with[i] == without[i];
      } else {
        assert with[i + 1] == without[i];
      }
    }
  }
}

/**
 * The unusual key-value database: a request is an insert when it holds '=',
 * the version query when it trims to "version", and a retrieve otherwise.
 */
module Database {
  import opened Wrappers
  import opened Text

  datatype Request = Insert(key: string, value: string) | Retrieve(key: string) | Version

  const VERSION_REPLY := "version=0.0.9"

  /**
   * `Request::from` on a decoded datagram: an insert splits at the first '='
   * and trims only the key; a retrieve keeps the text untrimmed.
   */
  function ParseRequest(s: string): Request
  {
    if '=' in s then
      var (k, v) := SplitOnce(s, '=');
      Insert(Trim(k), v)
    else if Trim(s) == "version" then Version
    else Retrieve(s)
  }

  /**
   * An insert exactly when the text holds '=', with the key trimmed from the
   * text before the first '=' and the value all the text after it; the version
   * query exactly when there is no '=' and the text trims to "version"; any
   * other text is a retrieve of itself, untrimmed.
   */
  lemma ParseRequestCases(s: string)
    ensures var r := ParseRequest(s);
      && (r.Insert? <==> '=' in s)
      && (r.Version? <==> '=' !in s && Trim(s) == "version")
      && (r.Retrieve? ==> r.key == s)
    ensures ParseRequest(s).Insert? ==> InsertSplits(s, ParseRequest(s))
  {
    if '=' in s {
      var (k, v) := SplitOnce(s, '=');
      assert s == k + ['='] + v;
      assert s[..|k|] == k && s[|k| + 1..] == v;
    }
  }

  /** The insert's value follows the text's first '=', and its key is the trimmed text before it. */
  predicate InsertSplits(s: string, r: Request)
    requires r.Insert?
  {
    var k := |s| - |r.value| - 1;
    0 <= k && s[k] == '=' && '=' !in s[..k] && r.value == s[k + 1..] && r.key == Trim(s[..k])
  }

  /** The request text a client sends. */
  function RenderRequest(r: Request): string
  {
    match r
    case Insert(key, value) => key + "=" + value
    case Retrieve(key) => key
    case Version => "version"
  }

  /** The requests a client can send and have read back as sent. */
  predicate Sendable(r: Request)
  {
    match r
    case Insert(key, _) => '=' !in key && Trim(key) == key
    case Retrieve(key) => '=' !in key && Trim(key) != "version"
    case Version => true
  }

  lemma ParseRender(r: Request)
    requires Sendable(r)
    ensures ParseRequest(RenderRequest(r)) == r
  {
    match r {
      case Insert(key, value) => ParseInsert(key, value);
      case Retrieve(_) =>
      case Version => VersionTrimmed();
    }
  }

  lemma ParseInsert(key: string, value: string)
    requires '=' !in key && Trim(key) == key
    ensures ParseRequest(key + "=" + value) == Insert(key, value)
  {
    var s := key + "=" + value;
    assert s[|key|] == '=';
    assert s[..|key|] == key;
  }

  lemma VersionTrimmed()
    ensures Trim("version") == "version" && '=' !in "version"
  {
    var v := "version";
    assert v[|v| - 1] == 'n' && !IsWhitespace('n');
    assert DropTrailing(v, IsWhitespace) == v;
    assert v[0] == 'v' && !IsWhitespace('v');
    assert DropLeading(v, IsWhitespace) == v;
  }

  /** One request against the store: the new store and the reply, if any. */
  function Respond(db: map<string, string>, r: Request): (map<string, string>, Option<string>)
  {
    match r
    case Insert(key, value) => (db[key := value], None)
    case Retrieve(key) => (db, if key in db then Some(key + "=" + db[key]) else None)
    case Version => (db, Some(VERSION_REPLY))
  }

  /** An insert overwrites only its key and sends nothing; the other requests leave the store alone. */
  lemma RespondFrame(db: map<string, string>, r: Request)
    ensures r.Insert? ==> (Respond(db, r).1 == None
      && Respond(db, r).0.Keys == db.Keys + {r.key} && Respond(db, r).0[r.key] == r.value
      && forall k :: k in db && k != r.key ==> Respond(db, r).0[k] == db[k])
    ensures !r.Insert? ==> Respond(db, r).0 == db
  {
  }

  /** A retrieve after an insert of the same key replies "key=value". */
  lemma RetrieveAfterInsert(db: map<string, string>, key: string, value: string)
    ensures Respond(Respond(db, Insert(key, value)).0, Retrieve(key)).1 == Some(key + "=" + value)
  {
  }

  /** A retrieve replies only for stored keys, with the stored value after '='. */
  lemma RetrieveReply(db: map<string, string>, key: string)
    ensures Respond(db, Retrieve(key)).1.Some? <==> key in db
    ensures key in db ==> var reply := Respond(db, Retrieve(key)).1.value;
      reply[..|key|] == key && reply[|key|] == '=' && reply[|key| + 1..] == db[key]
  {
  }

  /** "version" is answered with the fixed version even after a client stores a "version" key. */
  lemma VersionFixed(db: map<string, string>, value: string)
    ensures var stored := Respond(db, ParseRequest("version=" + value)).0;
      "version" in stored && Respond(stored, ParseRequest("version")).1 == Some(VERSION_REPLY)
  {
    VersionTrimmed();
    ParseInsert("version", value);
    assert "version=" + value == "version" + "=" + value;
    assert ParseRequest("version") == Version;
  }

  /** The server's store. */
  class Store {
    var db: map<string, string>

    constructor()
      ensures db == map[]
    {
      db := map[];
    }

    /** `handle_request`: updates the store and returns the reply sent back, if any. */
    method HandleRequest(r: Request) returns (reply: Option<string>)
      modifies this
      ensures (db, reply) == Respond(old(db), r)
    {
      match r {
        case Insert(key, value) =>
          db := db[key := value];
          reply := None;
        case Retrieve(key) =>
          if key in db {
            reply := Some(key + "=" + db[key]);
          } else {
            reply := None;
          }
        case Version =>
          reply := Some(VERSION_REPLY);
      }
    }
  }
}

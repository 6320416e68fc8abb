/** The `ReleaseInfo` dataclass of v-and-r.py and the object that `to_json`
    hands to the JSON encoder: five keys, in a fixed order. The encoder itself
    (text layout, escaping, indentation) is not part of this model. */
module Release {
  import opened Wrappers

  /** One entry of `commits`: a dictionary. Its values are taken to be strings. */
  type CommitEntry = map<string, string>

  datatype ReleaseInfo = ReleaseInfo(
    version: string,
    timestamp: string,
    commitHash: string,
    commits: seq<CommitEntry>,
    previousVersion: Option<string> := None)

  /** The JSON values `to_json` produces: strings, `null` for a missing
      previous version, and the list of commit dictionaries. */
  datatype JsonValue = JString(s: string) | JNull | JCommits(entries: seq<CommitEntry>)

  /** The keys of the encoded object, in the order they are written. */
  const RELEASE_KEYS: seq<string> := ["version", "timestamp", "commit_hash", "previous_version", "commits"]

  function Keys(obj: seq<(string, JsonValue)>): (ks: seq<string>)
    ensures |ks| == |obj|
    ensures forall i :: 0 <= i < |obj| ==> ks[i] == obj[i].0
  {
    seq(|obj|, i requires 0 <= i < |obj| => obj[i].0)
  }

  /** The dictionary `to_json` encodes, as an ordered list of key/value pairs. */
  function ToJsonObject(info: ReleaseInfo): (obj: seq<(string, JsonValue)>)
    ensures Keys(obj) == RELEASE_KEYS
    ensures obj[3].1 == JNull <==> info.previousVersion.None?
    ensures FromJsonObject(obj) == Some(info)
  {
    [ ("version", JString(info.version)),
      ("timestamp", JString(info.timestamp)),
      ("commit_hash", JString(info.commitHash)),
      ("previous_version", match info.previousVersion
                           case Some(p) => JString(p)
                           case None => JNull),
      ("commits", JCommits(info.commits)) ]
  }

  /** Reads a release record back from an encoded object: the five keys in
      order, strings where strings belong, `null` or a string for the previous
      version. `None` for any other object. */
  function FromJsonObject(obj: seq<(string, JsonValue)>): (r: Option<ReleaseInfo>)
    ensures r.Some? ==> Keys(obj) == RELEASE_KEYS
  {
    if |obj| != 5 || Keys(obj) != RELEASE_KEYS then None
    else
      match (obj[0].1, obj[1].1, obj[2].1, obj[3].1, obj[4].1)
      case (JString(v), JString(t), JString(h), JNull, JCommits(cs)) =>
        Some(ReleaseInfo(v, t, h, cs, None))
      case (JString(v), JString(t), JString(h), JString(p), JCommits(cs)) =>
        Some(ReleaseInfo(v, t, h, cs, Some(p)))
      case _ => None
  }

  /** Every object `FromJsonObject` accepts is the encoding of the record it
      reads: with `ToJsonObject`'s contract, the encoding loses nothing and
      produces nothing else. */
  lemma FromJsonObjectIsEncoding(obj: seq<(string, JsonValue)>, info: ReleaseInfo)
    requires FromJsonObject(obj) == Some(info)
    ensures ToJsonObject(info) == obj
  {
    assert Keys(obj) == RELEASE_KEYS;
    assert obj[0].0 == "version" && obj[1].0 == "timestamp" && obj[2].0 == "commit_hash";
    assert obj[3].0 == "previous_version" && obj[4].0 == "commits";
  }

  /** The encoded object has no repeated key. */
  lemma ReleaseKeysDistinct()
    ensures forall i, j :: 0 <= i < j < |RELEASE_KEYS| ==> RELEASE_KEYS[i] != RELEASE_KEYS[j]
  {
  }

  /** `previous_version` defaults to `None`, encoded as `null`. */
  lemma PreviousVersionDefault(version: string, timestamp: string, commitHash: string, commits: seq<CommitEntry>)
    ensures ReleaseInfo(version, timestamp, commitHash, commits).previousVersion == None
    ensures ToJsonObject(ReleaseInfo(version, timestamp, commitHash, commits))[3] == ("previous_version", JNull)
  {
  }
}

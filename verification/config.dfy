/**
 * app/api/config/route.ts: the GET handler that serves the YouTube configuration. It
 * only reads the config collection, so it is a function of that collection's contents.
 */
module ConfigRoute {
  import opened Wrappers
  import opened Json
  import opened Types
  import opened Storage

  const DefaultChannelUrl := "https://www.youtube.com/@HonestCustomerExperienceIndia"

  /** The configuration served while none is stored; `now` is the clock's time. */
  function DefaultConfig(now: string): (r: Record)
    ensures Get(r, "channelUrl") == Some(Str(DefaultChannelUrl))
    ensures Get(r, "featuredVideoId") == Some(Str(""))
    ensures Get(r, "lastUpdated") == Some(Str(now))
    ensures r.Keys == {"channelUrl", "featuredVideoId", "lastUpdated"}
  {
    map["channelUrl" := Str(DefaultChannelUrl), "featuredVideoId" := Str(""), "lastUpdated" := Str(now)]
  }

  /** `GET`: the first stored configuration, or the default when there is none. */
  function GetConfig(configs: seq<Record>, now: string): (r: Response)
    ensures r.status == 200 && r.body.Config?
    ensures configs == [] ==> r.body.config == DefaultConfig(now)
    ensures configs != [] ==> r.body.config == configs[0]
  {
    if |configs| > 0 then Response(200, Config(configs[0]))
    else Response(200, Config(DefaultConfig(now)))
  }

  /** Records after the first one never influence the answer. */
  lemma {:induction false} LaterConfigsIgnored(first: Record, later: seq<Record>, now: string)
    ensures GetConfig([first] + later, now) == GetConfig([first], now)
  {
    assert ([first] + later)[0] == first;
  }

  /**
   * A missing, unreadable or malformed config file is served as the default, not as
   * an error, because reading it yields [].
   */
  lemma MissingConfigFileGivesDefault(config: JsonStorage, now: string)
    requires config.file.None?
    ensures GetConfig(config.Contents(), now) == Response(200, Config(DefaultConfig(now)))
  {
  }
}

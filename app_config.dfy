/** The gateway's fixed configuration values. */
module AppConfig {
  /** The public base url of this gateway, used in every link it hands out. */
  const INSTANCE_PUBLIC_URL: string := "https://youtube-audio-feed.fly.dev"
  /** The `generator` value of every produced feed. */
  const GENERATOR_STR: string := "youtube_audio_feed"
  const INVIDIOUS_INSTANCE: string := "https://invidious.namazso.eu"

  /** The url under which this gateway serves the audio of a video. */
  function AudioUrl(videoId: string): (url: string)
    ensures INSTANCE_PUBLIC_URL + "/audio/" <= url
    ensures url[|INSTANCE_PUBLIC_URL + "/audio/"|..] == videoId
  {
    INSTANCE_PUBLIC_URL + "/audio/" + videoId
  }

  /** Distinct videos get distinct audio urls. */
  lemma AudioUrlInjective(a: string, b: string)
    requires AudioUrl(a) == AudioUrl(b)
    ensures a == b
  {
    assert a == AudioUrl(a)[|INSTANCE_PUBLIC_URL + "/audio/"|..];
  }
}

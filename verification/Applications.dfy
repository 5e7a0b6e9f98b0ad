/** The applications of the Elastic Stack and the names they go by. */
module Applications {
  import opened Text

  datatype Application = Elasticsearch | Kibana | Logstash | Agent

  const ES := "es"
  const ELASTICSEARCH := "elasticsearch"
  const KB := "kb"
  const KIBANA := "kibana"
  const LS := "ls"
  const LOGSTASH := "logstash"
  const AGENT := "agent"

  function Key(app: Application): string {
    match app
    case Elasticsearch => ELASTICSEARCH
    case Kibana => KIBANA
    case Logstash => LOGSTASH
    case Agent => AGENT
  }

  /** Lower case, for the characters whose lower case is an ASCII letter: the ASCII ones and the Kelvin sign. */
  function LowerChar(c: char): char {
    if 'A' <= c <= 'Z' then c + 32 as char
    else if c == '\U{212A}' then 'k'
    else c
  }

  /** Lower case as far as the names below can tell. */
  function Lower(s: string): string {
    seq(|s|, i requires 0 <= i < |s| => LowerChar(s[i]))
  }

  function FromName(s: string): Option<Application> {
    var name := Lower(s);
    if name == ES || name == ELASTICSEARCH then Some(Elasticsearch)
    else if name == KB || name == KIBANA then Some(Kibana)
    else if name == LS || name == LOGSTASH then Some(Logstash)
    else if name == AGENT then Some(Agent)
    else None
  }

  /** The names differ in their first letters or their lengths. */
  lemma NamesDiffer()
    ensures |ES| == 2 && |ELASTICSEARCH| == 13 && |KB| == 2 && |KIBANA| == 6
    ensures |LS| == 2 && |LOGSTASH| == 8 && |AGENT| == 5
    ensures ES[0] == 'e' && ELASTICSEARCH[0] == 'e' && KB[0] == 'k' && KIBANA[0] == 'k'
    ensures LS[0] == 'l' && LOGSTASH[0] == 'l' && AGENT[0] == 'a'
  {
  }

  lemma KeysAreLower(app: Application)
    ensures Lower(Key(app)) == Key(app)
  {
  }

  /** Every key is a name of its application. */
  lemma KeyIsAName(app: Application)
    ensures FromName(Key(app)) == Some(app)
  {
    KeysAreLower(app);
    NamesDiffer();
  }
}

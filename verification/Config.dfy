/** The configuration file, as far as the policy, the robots.txt generator and the handler read it. */
module Config {
  import opened Text
  import opened Policy

  datatype VerifyType = NoVerify | ReverseDns | IpRanges

  datatype BotConfig = BotConfig(
    id: string, name: string, kind: string, operator: string,
    userAgents: seq<string>, isDefault: bool, verify: VerifyType)

  datatype Config = Config(
    host: string, mode: Mode, failMode: FailMode, defaultAction: Action,
    serveRobots: bool, sitemaps: seq<string>,
    bots: seq<BotConfig>, sets: map<string, SetValue>, rules: seq<Rule>)

  predicate ValidAction(action: Action) {
    match action
    case Block(status) => status == 0 || 100 <= status <= 599
    case RateLimit(_, rpm) => rpm > 0
    case _ => true
  }

  predicate ValidSitemap(url: string) { "http://" <= url || "https://" <= url }

  /** What a loaded configuration is checked for before it is used. */
  ghost predicate Valid(cfg: Config) {
    && ValidAction(cfg.defaultAction)
    && (forall s :: s in cfg.sitemaps ==> ValidSitemap(s))
    && (exists i :: 0 <= i < |cfg.bots| && cfg.bots[i].isDefault)
    && (forall i, j :: 0 <= i < j < |cfg.bots| ==> !(cfg.bots[i].isDefault && cfg.bots[j].isDefault))
    && (forall i, j :: 0 <= i < j < |cfg.bots| ==> cfg.bots[i].id != cfg.bots[j].id)
    && (forall b :: b in cfg.bots ==>
          && (b.isDefault || |b.userAgents| > 0)
          && forall u :: u in b.userAgents ==> Trim(SPACES, u) != "")
    && UniqueIds(cfg.rules)
    && (forall r :: r in cfg.rules ==> ValidAction(r.action))
  }

  function NewEngine(cfg: Config): Engine {
    Engine(Compile(cfg.rules), cfg.sets, cfg.defaultAction)
  }
}

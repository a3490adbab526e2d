/** `load_credentials`: the admin email and password and the Google AI key, taken from
    the process environment first and from `config.json` only when the email or the
    password is missing. */
module Credentials {
  import opened Options

  /** The three secrets. Used both for the environment's values (`BLOG_EMAIL`,
      `BLOG_PASSWORD`, `GOOGLE_AI_API_KEY`) and for the resolved result. */
  datatype Secrets = Secrets(email: Option<string>, password: Option<string>, apiKey: Option<string>)

  /** The `google_ai` entry of the config object: absent, an object with an optional
      `api_key`, or some other JSON value (on which `.get` raises). */
  datatype GoogleAiSection = NoSection | Section(apiKey: Option<string>) | NotAnObject

  /** `config.json` after a successful `json.load` into an object; an absent field or a
      JSON `null` is `None`. */
  datatype ConfigFile = ConfigFile(email: Option<string>, password: Option<string>, googleAi: GoogleAiSection)

  /** Both login secrets are truthy. */
  predicate HasLogin(s: Secrets) {
    Truthy(s.email) && Truthy(s.password)
  }

  /** Resolution of the three secrets. `config` is `None` when the file is missing,
      unreadable, not JSON or not a JSON object: the exception is logged and the
      environment's values are kept. A `google_ai` entry that is not an object raises
      only after email and password have been merged, so those two merges stand and the
      key keeps its environment value. */
  function LoadCredentials(env: Secrets, config: Option<ConfigFile>): (r: Secrets)
    // a truthy environment value is never overridden
    ensures Truthy(env.email) ==> r.email == env.email
    ensures Truthy(env.password) ==> r.password == env.password
    ensures Truthy(env.apiKey) ==> r.apiKey == env.apiKey
    // the file is not consulted at all when both login values are set
    ensures HasLogin(env) ==> r == env
    ensures config.None? ==> r == env
    // otherwise each falsy login value is replaced by the file's field, whatever it is
    ensures !HasLogin(env) && config.Some? ==>
      && (!Truthy(env.email) ==> r.email == config.value.email)
      && (!Truthy(env.password) ==> r.password == config.value.password)
    // a falsy key is replaced by the file's key only when `google_ai` is usable
    ensures !HasLogin(env) && config.Some? && !Truthy(env.apiKey) ==>
      r.apiKey == match config.value.googleAi
        case NoSection => None
        case Section(k) => k
        case NotAnObject => env.apiKey
  {
    if HasLogin(env) then env
    else
      match config
      case None => env
      case Some(c) =>
        var email := Or(env.email, c.email);
        var password := Or(env.password, c.password);
        match c.googleAi
        case NotAnObject => Secrets(email, password, env.apiKey)
        case NoSection => Secrets(email, password, Or(env.apiKey, None))
        case Section(k) => Secrets(email, password, Or(env.apiKey, k))
  }

  /** Resolving a second time against the same file changes nothing. */
  lemma LoadCredentialsIdempotent(env: Secrets, config: Option<ConfigFile>)
    ensures LoadCredentials(LoadCredentials(env, config), config) == LoadCredentials(env, config)
  {
  }

  /** The run can reach the browser stage only when the resolved email and password are
      both truthy; each of them is truthy exactly when the environment's or, if the file
      was consulted and read, the file's value is. */
  lemma LoginAvailable(env: Secrets, config: Option<ConfigFile>)
    ensures HasLogin(LoadCredentials(env, config)) <==>
      HasLogin(env) ||
      (config.Some? &&
       (Truthy(env.email) || Truthy(config.value.email)) &&
       (Truthy(env.password) || Truthy(config.value.password)))
  {
  }
}

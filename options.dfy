/**
 * Option normalisation: `defaults` (index.js:73-91).
 *
 * The options object a user passes to `pipe` is rewritten in place: the
 * call throws when no streamer is given, and otherwise fills in the
 * encoding, the byte limit, the allow pattern and the filename generator.
 * Settings is the value of such an object, Normalize says what `defaults`
 * turns it into, and the class Options is the object itself, rewritten by
 * the method Defaults.
 */
module OptionDefaults {
  import opened Common

  /** The `limit` option: absent, a number, or a size written as text such as '128mb'. */
  datatype LimitSetting = Unset | Bytes(n: int) | Text(size: string)

  /**
   * The `allow` option: either a RegExp object (kept as its source text) or
   * any other value, which becomes the source of a new RegExp; "" stands for
   * every falsy value.
   */
  datatype AllowSetting = Source(text: string) | RegExp(source: string)

  /** The `filename` option: a function from (original filename, content type) to a name, or anything else. */
  datatype FilenameSetting = Missing | NotAFunction | Function(f: (string, string) -> string)

  /**
   * The fields of an options object that `defaults` reads or writes.
   * `streamer` tells whether the streamer option is present (truthy);
   * `encoding` is "" when the option is falsy.
   */
  datatype Settings = Settings(
    streamer: bool,
    encoding: string,
    limit: LimitSetting,
    allow: AllowSetting,
    filename: FilenameSetting)

  const DefaultEncoding: string := "utf8"
  /** The default limit, given as text to the `bytes` parser. */
  const DefaultLimit: string := "128mb"
  /** The default allow pattern: any content type. */
  const MatchAll: string := ".*"

  /** The filename generator used when none is given: it keeps the original filename. */
  function KeepFilename(filename: string, mime: string): string
  {
    filename
  }

  /** The form `defaults` leaves every option in. */
  predicate Normal(s: Settings)
  {
    s.streamer && s.encoding != "" && s.limit.Bytes? && s.allow.RegExp? && s.filename.Function?
  }

  /**
   * What `defaults` makes of an options object; `parse` is the `bytes`
   * package's parser of sizes such as '128mb' (a foreign function, with an
   * unparsable text read as 0, which is falsy like the parser's null).
   */
  function Normalize(s: Settings, parse: string -> int): (r: Result<Settings>)
    ensures r.Thrown? <==> !s.streamer
    ensures r.Thrown? ==> r.error == MissingStreamer
    ensures r.Ok? ==> Normal(r.value)
    ensures r.Ok? && s.encoding != "" ==> r.value.encoding == s.encoding
    ensures r.Ok? && s.encoding == "" ==> r.value.encoding == DefaultEncoding
    ensures r.Ok? && s.limit.Unset? ==> r.value.limit == Bytes(parse(DefaultLimit))
    ensures r.Ok? && s.limit.Bytes? ==> r.value.limit == s.limit
    ensures r.Ok? && s.limit.Text? ==> r.value.limit == Bytes(parse(s.limit.size))
    ensures r.Ok? && s.allow.RegExp? ==> r.value.allow == s.allow
    ensures r.Ok? && s.allow.Source? ==> r.value.allow == RegExp(if s.allow.text == "" then MatchAll else s.allow.text)
    ensures r.Ok? && s.filename.Function? ==> r.value.filename == s.filename
    ensures r.Ok? && !s.filename.Function? ==> forall name, mime :: r.value.filename.f(name, mime) == name
  {
    if !s.streamer then Thrown(MissingStreamer)
    else
      var limit := if s.limit.Unset? then Text(DefaultLimit) else s.limit;
      Ok(Settings(
        true,
        if s.encoding == "" then DefaultEncoding else s.encoding,
        if limit.Text? then Bytes(parse(limit.size)) else limit,
        if s.allow.RegExp? then s.allow else RegExp(if s.allow.text == "" then MatchAll else s.allow.text),
        if s.filename.Function? then s.filename else Function(KeepFilename)))
  }

  /** Options already in normal form pass through `defaults` unchanged. */
  lemma NormalIsFixed(s: Settings, parse: string -> int)
    requires Normal(s)
    ensures Normalize(s, parse) == Ok(s)
  {
  }

  /** Running `defaults` twice on the same object gives what running it once gave. */
  lemma NormalizeIdempotent(s: Settings, parse: string -> int)
    requires Normalize(s, parse).Ok?
    ensures Normalize(Normalize(s, parse).value, parse) == Normalize(s, parse)
  {
  }

  /** A supplied limit of 0 is kept (only an absent limit gets the default), so the limit check stays off. */
  lemma ZeroLimitKept(s: Settings, parse: string -> int)
    requires s.streamer && s.limit == Bytes(0)
    ensures Normalize(s, parse).Ok? && Normalize(s, parse).value.limit == Bytes(0)
  {
  }

  /** An options object, whose fields `defaults` rewrites in place. */
  class Options {
    var streamer: bool
    var encoding: string
    var limit: LimitSetting
    var allow: AllowSetting
    var filename: FilenameSetting

    function Value(): Settings
      reads this
    {
      Settings(streamer, encoding, limit, allow, filename)
    }

    constructor (s: Settings)
      ensures Value() == s
    {
      streamer, encoding, limit, allow, filename := s.streamer, s.encoding, s.limit, s.allow, s.filename;
    }
  }

  /**
   * `defaults(opts)`: throws when there is no options object or it has no
   * streamer, leaving the object as it was; otherwise rewrites the object to
   * what Normalize gives and returns it.
   */
  method Defaults(opts: Options?, parse: string -> int) returns (r: Result<Options>)
    modifies opts
    ensures opts == null ==> r == Thrown(MissingStreamer)
    ensures opts != null && !old(opts.streamer) ==> r == Thrown(MissingStreamer) && opts.Value() == old(opts.Value())
    ensures opts != null && old(opts.streamer) ==>
              r == Ok(opts) && Normalize(old(opts.Value()), parse) == Ok(opts.Value())
  {
    if opts == null || !opts.streamer {
      return Thrown(MissingStreamer);
    }
    if opts.encoding == "" {
      opts.encoding := DefaultEncoding;
    }
    if opts.limit.Unset? {
      opts.limit := Text(DefaultLimit);
    }
    if opts.limit.Text? {
      opts.limit := Bytes(parse(opts.limit.size));
    }
    if opts.allow.Source? {
      opts.allow := RegExp(if opts.allow.text == "" then MatchAll else opts.allow.text);
    }
    if !opts.filename.Function? {
      opts.filename := Function(KeepFilename);
    }
    r := Ok(opts);
  }
}

/**
 * Three small stores of ImHexApi: the command-line init arguments
 * (ImHexApi::System), the forward-event handlers (ImHexApi::Messaging) and
 * the glyph ranges handed to the font loader (ImHexApi::Fonts).
 */
module SystemApi {

  import opened MachineInt

  // ---------------------------------------------------------------- System

  /** getInitArgument: the stored value, or the empty string when absent. */
  function InitArgument(arguments: map<string, string>, key: string): (value: string)
    ensures key in arguments ==> value == arguments[key]
    ensures key !in arguments ==> value == ""
  {
    if key in arguments then arguments[key] else ""
  }

  /** A later addInitArgument for the same key replaces the earlier value. */
  lemma InitArgumentAfterAdd(arguments: map<string, string>, key: string, value: string, query: string)
    ensures InitArgument(arguments[key := value], query) ==
            if query == key then value else InitArgument(arguments, query)
  {
  }

  class InitArguments {
    var arguments: map<string, string>

    constructor ()
      ensures arguments == map[]
    {
      arguments := map[];
    }

    /** addInitArgument: operator[] assignment, so the value is overwritten. */
    method Add(key: string, value: string)
      modifies this
      ensures arguments == old(arguments)[key := value]
    {
      arguments := arguments[key := value];
    }

    method Get(key: string) returns (value: string)
      ensures value == InitArgument(arguments, key)
    {
      if key in arguments {
        value := arguments[key];
      } else {
        value := "";
      }
    }
  }

  // ------------------------------------------------------------- Messaging

  /** A registered handler; its code is not part of this model. */
  datatype MessagingHandler = MessagingHandler(handle: nat)

  /** What runHandler does: log that no handler exists, or call the one found. */
  datatype Outcome =
    | NotFound(eventName: string)
    | Invoked(handler: MessagingHandler, args: seq<bv8>)

  /** registerHandler: std::map::insert, so an existing handler is kept. */
  function Register(handlers: map<string, MessagingHandler>, eventName: string, handler: MessagingHandler)
    : (r: map<string, MessagingHandler>)
    ensures r.Keys == handlers.Keys + {eventName}
    ensures eventName in handlers ==> r == handlers
    ensures eventName !in handlers ==> r[eventName] == handler
    ensures forall name :: name in handlers ==> r[name] == handlers[name]
  {
    if eventName in handlers then handlers else handlers[eventName := handler]
  }

  /** runHandler: the outcome of forwarding `args` to `eventName`. */
  function Run(handlers: map<string, MessagingHandler>, eventName: string, args: seq<bv8>): (o: Outcome)
    ensures o.NotFound? <==> eventName !in handlers
    ensures o.NotFound? ==> o.eventName == eventName
    ensures o.Invoked? ==> o.handler == handlers[eventName] && o.args == args
  {
    if eventName in handlers then Invoked(handlers[eventName], args) else NotFound(eventName)
  }

  /** A sequence of registerHandler calls, oldest first. */
  function RegisterAll(handlers: map<string, MessagingHandler>, registrations: seq<(string, MessagingHandler)>)
    : (r: map<string, MessagingHandler>)
    decreases |registrations|
  {
    if registrations == [] then handlers
    else RegisterAll(Register(handlers, registrations[0].0, registrations[0].1), registrations[1..])
  }

  /**
   * The first registration of a name wins: after any series of
   * registerHandler calls, a name already present keeps its handler, and a
   * new name is bound to the handler of its earliest registration.
   */
  lemma {:induction false} FirstRegistrationWins(
    handlers: map<string, MessagingHandler>,
    registrations: seq<(string, MessagingHandler)>,
    i: nat)
    requires i < |registrations|
    requires registrations[i].0 !in handlers
    requires forall j :: 0 <= j < i ==> registrations[j].0 != registrations[i].0
    ensures registrations[i].0 in RegisterAll(handlers, registrations)
    ensures RegisterAll(handlers, registrations)[registrations[i].0] == registrations[i].1
    decreases i
  {
    var next := Register(handlers, registrations[0].0, registrations[0].1);
    if i == 0 {
      RegisteredStays(next, registrations[1..], registrations[0].0);
    } else {
      assert registrations[1..][i - 1] == registrations[i];
      FirstRegistrationWins(next, registrations[1..], i - 1);
    }
  }

  /** A name already registered keeps its handler through further registrations. */
  lemma {:induction false} RegisteredStays(
    handlers: map<string, MessagingHandler>,
    registrations: seq<(string, MessagingHandler)>,
    eventName: string)
    requires eventName in handlers
    ensures eventName in RegisterAll(handlers, registrations)
    ensures RegisterAll(handlers, registrations)[eventName] == handlers[eventName]
    decreases |registrations|
  {
    if registrations != [] {
      RegisteredStays(Register(handlers, registrations[0].0, registrations[0].1), registrations[1..], eventName);
    }
  }

  class Messaging {
    var handlers: map<string, MessagingHandler>

    constructor ()
      ensures handlers == map[]
    {
      handlers := map[];
    }

    method RegisterHandler(eventName: string, handler: MessagingHandler)
      modifies this
      ensures handlers == Register(old(handlers), eventName, handler)
    {
      if eventName !in handlers {
        handlers := handlers[eventName := handler];
      }
    }

    method RunHandler(eventName: string, args: seq<bv8>) returns (o: Outcome)
      ensures o == Run(handlers, eventName, args)
    {
      if eventName in handlers {
        o := Invoked(handlers[eventName], args);
      } else {
        o := NotFound(eventName);
      }
    }
  }

  // ----------------------------------------------------------------- Fonts

  /** A range of code points for the font atlas, as two u16 values. */
  datatype GlyphRange = GlyphRange(begin: u16, end: u16)

  /** glyph(codepoint): a one-code-point range, truncated to 16 bits. */
  function Glyph(codepoint: u32): (r: GlyphRange)
    ensures r.begin == r.end
    ensures codepoint < U16_LIMIT ==> r.begin == codepoint
    ensures r.begin == codepoint % U16_LIMIT
  {
    GlyphRange(ToU16(codepoint), ToU16(codepoint))
  }

  /** range(begin, end): both ends truncated to 16 bits. */
  function Range(codepointBegin: u32, codepointEnd: u32): (r: GlyphRange)
    ensures codepointBegin < U16_LIMIT ==> r.begin == codepointBegin
    ensures codepointEnd < U16_LIMIT ==> r.end == codepointEnd
    ensures r.begin == codepointBegin % U16_LIMIT && r.end == codepointEnd % U16_LIMIT
  {
    GlyphRange(ToU16(codepointBegin), ToU16(codepointEnd))
  }

  /**
   * Only the low 16 bits survive: a code point outside the Basic
   * Multilingual Plane names the same range as the one 0x10000 below it,
   * so U+1F600 becomes U+F600.
   */
  lemma GlyphDropsHighBits(codepoint: u32)
    requires codepoint + U16_LIMIT < U32_LIMIT
    ensures Glyph(codepoint + U16_LIMIT) == Glyph(codepoint)
    ensures Range(codepoint + U16_LIMIT, codepoint) == Glyph(codepoint)
  {
  }

  lemma GlyphOutsideBmp()
    ensures Glyph(0x1F600) == GlyphRange(0xF600, 0xF600)
  {
  }
}

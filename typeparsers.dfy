/**
 * The type-parser cache of the import: a dictionary from canonical parser type to the
 * parser instance created for it, filled on demand by GetTypeParser.
 */
module TypeParsers {
  import opened Wrappers

  /**
   * What TypeParserFactory decides, which the model takes as given: the canonical parser
   * type of a type keyword (GetTypeParserType), whether CreateTypeParser yields a parser
   * for a keyword, and what a parser of a canonical type makes of a cell.
   */
  datatype TypeParserFactory<V> = TypeParserFactory(
    parserTypeOf: string -> Option<string>,
    canCreate: string -> bool,
    parse: string -> string -> V)

  /** A parser instance; its canonical type is fixed when it is created. */
  class TypeParser {
    const parserType: string

    constructor (parserType: string)
      ensures this.parserType == parserType
    {
      this.parserType := parserType;
    }
  }

  /**
   * GetTypeParser finds a parser for the keyword when the keyword is non-empty, has a
   * canonical type, and either a parser of that type is already cached or the factory
   * creates one for this keyword.
   */
  function ParserAvailable<V>(factory: TypeParserFactory<V>, ready: set<string>, keyword: string): bool {
    keyword != "" && factory.parserTypeOf(keyword).Some?
    && (factory.parserTypeOf(keyword).value in ready || factory.canCreate(keyword))
  }

  /** The canonical types with a cached parser after one GetTypeParser call. */
  function ReadyAfter<V>(factory: TypeParserFactory<V>, ready: set<string>, keyword: string): (after: set<string>)
    ensures ready <= after
    ensures forall t :: t in after && t !in ready ==> factory.parserTypeOf(keyword) == Some(t)
    ensures ParserAvailable(factory, ready, keyword) ==> factory.parserTypeOf(keyword).value in after
    ensures !ParserAvailable(factory, ready, keyword) ==> after == ready
  {
    if ParserAvailable(factory, ready, keyword) then ready + {factory.parserTypeOf(keyword).value} else ready
  }

  /**
   * Once a keyword has found a parser, every keyword of the same canonical type finds one
   * too, whether or not the factory would create one for it.
   */
  lemma AvailableForSameType<V>(factory: TypeParserFactory<V>, ready: set<string>, first: string, second: string)
    requires ParserAvailable(factory, ready, first)
    requires second != "" && factory.parserTypeOf(second) == factory.parserTypeOf(first)
    ensures ParserAvailable(factory, ReadyAfter(factory, ready, first), second)
    ensures ReadyAfter(factory, ReadyAfter(factory, ready, first), second) == ReadyAfter(factory, ready, first)
  {
  }

  /**
   * A cache after an update keeps every type it had, and every parser it held is still
   * held, as the same instance, under the same type.
   */
  predicate KeepsParsers(before: map<string, TypeParser?>, after: map<string, TypeParser?>) {
    before.Keys <= after.Keys
    && forall t :: t in before && before[t] != null ==> t in after && after[t] == before[t]
  }

  /** The static dictionary cachedTypeParsersMap of the import, with the factory it asks. */
  class TypeParserCache<V> {
    const factory: TypeParserFactory<V>
    var cache: map<string, TypeParser?>

    /** Every cached parser is stored under its own canonical type. */
    ghost predicate Valid()
      reads this
    {
      forall t :: t in cache && cache[t] != null ==> cache[t].parserType == t
    }

    /** The canonical types that have a (non-null) cached parser. */
    ghost function Ready(): set<string>
      reads this
    {
      set t | t in cache && cache[t] != null
    }

    constructor (factory: TypeParserFactory<V>)
      ensures Valid() && this.factory == factory && cache == map[]
    {
      this.factory := factory;
      cache := map[];
    }

    /**
     * GetTypeParser. An empty keyword or one without a canonical type yields null and
     * leaves the cache alone. Otherwise the parser cached for the canonical type is
     * reused when there is one; when there is none, or the entry is null, the factory is
     * asked to create one for this keyword, and its answer, null included, is stored.
     */
    method GetTypeParser(keyword: string) returns (parser: TypeParser?)
      requires Valid()
      modifies this
      ensures Valid()
      ensures keyword == "" || factory.parserTypeOf(keyword).None? ==> parser == null && cache == old(cache)
      ensures keyword != "" && factory.parserTypeOf(keyword).Some? ==>
        var t := factory.parserTypeOf(keyword).value;
        && cache == old(cache)[t := parser]
        && (t in old(cache) && old(cache)[t] != null ==> parser == old(cache)[t])
        && (!(t in old(cache) && old(cache)[t] != null) ==>
              (parser == null <==> !factory.canCreate(keyword)) && (parser != null ==> fresh(parser)))
      ensures parser != null ==> parser.parserType == factory.parserTypeOf(keyword).value
      ensures (parser != null) == ParserAvailable(factory, old(Ready()), keyword)
      ensures Ready() == ReadyAfter(factory, old(Ready()), keyword)
      ensures KeepsParsers(old(cache), cache)
    {
      parser := null;
      if keyword != "" {
        var parserType := factory.parserTypeOf(keyword);
        if parserType.Some? {
          var t := parserType.value;
          if t in cache {
            parser := cache[t];
            if parser == null {
              parser := CreateTypeParser(keyword, t);
              cache := cache[t := parser];
            }
          } else {
            parser := CreateTypeParser(keyword, t);
            cache := cache[t := parser];
          }
          assert t in Ready() <==> parser != null;
          assert forall u :: u != t ==> (u in Ready() <==> u in old(Ready()));
        }
      }
    }

    /** TypeParserFactory.CreateTypeParser: a new parser of the keyword's type, or null. */
    method CreateTypeParser(keyword: string, parserType: string) returns (parser: TypeParser?)
      ensures parser == null <==> !factory.canCreate(keyword)
      ensures parser != null ==> fresh(parser) && parser.parserType == parserType
    {
      if factory.canCreate(keyword) {
        parser := new TypeParser(parserType);
      } else {
        parser := null;
      }
    }
  }

  /**
   * Two lookups of keywords of the same canonical type: once the first has found a
   * parser, the second returns that same instance and creates nothing.
   */
  method SameTypeSharesParser<V>(parsers: TypeParserCache<V>, first: string, second: string)
    returns (p: TypeParser?, q: TypeParser?)
    requires parsers.Valid()
    requires second != "" && parsers.factory.parserTypeOf(second) == parsers.factory.parserTypeOf(first)
    modifies parsers
    ensures p != null ==> q == p && parsers.cache == old(parsers.cache)[p.parserType := p]
  {
    p := parsers.GetTypeParser(first);
    q := parsers.GetTypeParser(second);
  }
}

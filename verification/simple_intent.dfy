/** The three-way classifier of server/intelligence/intent.ts. */
module SimpleIntent {
  import Js
  import Utils

  /** `IntentType` of that file; `Unknown` is declared but never returned. */
  datatype SimpleIntentType = Parliament | Query | Command | Unknown

  const ParliamentWords: seq<string> := ["parliament", "vote", "decide"]
  const QueryWords: seq<string> := ["?", "what", "how", "when"]

  /** Some word occurs in `msg`. */
  predicate MentionsAny(msg: string, words: seq<string>)
  {
    exists k :: 0 <= k < |words| && Js.Includes(msg, words[k])
  }

  /** `classifyIntent(userMessage)`: parliament words first, then query
      words, then `Command`, all on the lower-cased message. */
  function ClassifyMessage(userMessage: string): (r: SimpleIntentType)
    ensures r != Unknown
    ensures r == Parliament <==> MentionsAny(Js.Lower(userMessage), ParliamentWords)
    ensures r == Query <==> !MentionsAny(Js.Lower(userMessage), ParliamentWords)
                            && MentionsAny(Js.Lower(userMessage), QueryWords)
  {
    var msg := Js.Lower(userMessage);
    WordsMentioned(msg);
    if Js.Includes(msg, "parliament") || Js.Includes(msg, "vote") || Js.Includes(msg, "decide") then
      Parliament
    else if Js.Includes(msg, "?") || Js.Includes(msg, "what") || Js.Includes(msg, "how") || Js.Includes(msg, "when") then
      Query
    else
      Command
  }

  /** The word lists, spelt out. */
  lemma WordsMentioned(msg: string)
    ensures MentionsAny(msg, ParliamentWords) <==>
              Js.Includes(msg, "parliament") || Js.Includes(msg, "vote") || Js.Includes(msg, "decide")
    ensures MentionsAny(msg, QueryWords) <==>
              Js.Includes(msg, "?") || Js.Includes(msg, "what") || Js.Includes(msg, "how") || Js.Includes(msg, "when")
  {
    assert ParliamentWords == ["parliament", "vote", "decide"];
    assert QueryWords == ["?", "what", "how", "when"];
    if Js.Includes(msg, "parliament") { assert Js.Includes(msg, ParliamentWords[0]); }
    if Js.Includes(msg, "vote") { assert Js.Includes(msg, ParliamentWords[1]); }
    if Js.Includes(msg, "decide") { assert Js.Includes(msg, ParliamentWords[2]); }
    if Js.Includes(msg, "?") { assert Js.Includes(msg, QueryWords[0]); }
    if Js.Includes(msg, "what") { assert Js.Includes(msg, QueryWords[1]); }
    if Js.Includes(msg, "how") { assert Js.Includes(msg, QueryWords[2]); }
    if Js.Includes(msg, "when") { assert Js.Includes(msg, QueryWords[3]); }
  }

  /** The classifier ignores case: lower-casing the message first changes
      nothing. */
  lemma ClassifyIgnoresCase(m: string)
    ensures ClassifyMessage(Js.Lower(m)) == ClassifyMessage(m)
  {
    Js.LowerIdempotent(m);
  }

  /** The empty message is a command, not `Unknown`. */
  lemma EmptyIsCommand()
    ensures ClassifyMessage("") == Command
  {
    assert Js.Lower("") == "";
  }

  /** Matching is substring matching: "somewhat" is a query through "what". */
  lemma SomewhatIsQuery()
    ensures ClassifyMessage("somewhat") == Query
  {
    Js.LowerOfLowerCase("somewhat");
    SomewhatMentionsWhat();
    SomewhatMentionsNoParliamentWord();
  }

  lemma SomewhatMentionsWhat()
    ensures Js.Includes("somewhat", "what")
  {
    assert "somewhat"[4..8] == "what";
    assert Js.OccursAt("somewhat", "what", 4);
  }

  lemma SomewhatMentionsNoParliamentWord()
    ensures !Js.Includes("somewhat", "parliament")
    ensures !Js.Includes("somewhat", "vote")
    ensures !Js.Includes("somewhat", "decide")
  {
    SomewhatLacks("parliament", 'p');
    SomewhatLacks("vote", 'v');
    SomewhatLacks("decide", 'd');
  }

  lemma SomewhatLacks(word: string, c: char)
    requires c in word && c in "pvd"
    ensures !Js.Includes("somewhat", word)
  {
    assert c !in "somewhat";
    Js.NotIncludesMissingChar("somewhat", word, c);
  }

  /** A parliament word wins over any query word. */
  lemma ParliamentBeforeQuery(m: string)
    requires Js.Includes(Js.Lower(m), "vote")
    ensures ClassifyMessage(m) == Parliament
  {
  }
}

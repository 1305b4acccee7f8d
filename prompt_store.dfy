/** The prompt store of utils/prompt_store.py: a fixed bank of named
    prompts and the lookup with a fallback key. */
module PromptStore {

  /** `PROMPT_BANK`. Adjacent string literals in the source are concatenated
      with no separator, so the texts below are joined the same way. */
  const PromptBank: map<string, string> := map[
    "creative_story" := "Write a 500-word creative story:",
    "default" := "The United States of America (USA), also known as the United States (U.S.) or America, "
                 + "is a country primarily located in North America. It",
    "NLP_research" := "Write a numbered list of 100 new research projects in natural language processing:"
                      + "1. diversyfying the open source language model output "
                      + "2. Finding correlation between the human brain and language models "
                      + "3. ",
    "NLP_research_no_examples" := "Write a numbered list of 100 new research projects in natural language processing:"
                                  + "1. ",
    "haiku" := "Write a haiku:",
    "poem" := "Write a 250-word poem:"
  ]

  /** The keys of the bank, as written. */
  const PromptKeys: set<string> :=
    {"creative_story", "default", "NLP_research", "NLP_research_no_examples", "haiku", "poem"}

  /** `d.get(key, fallback)`. */
  function Get(d: map<string, string>, key: string, fallback: string): (r: string)
    ensures key in d ==> r == d[key]
    ensures key !in d ==> r == fallback
  {
    if key in d then d[key] else fallback
  }

  /** `get_prompt(key, default_key)`: the prompt under `key`; failing that,
      the prompt under `defaultKey`; failing that, the empty string. */
  function GetPrompt(key: string, defaultKey: string := "default"): (r: string)
    ensures key in PromptBank ==> r == PromptBank[key]
    ensures key !in PromptBank && defaultKey in PromptBank ==> r == PromptBank[defaultKey]
    ensures key !in PromptBank && defaultKey !in PromptBank ==> r == ""
  {
    Get(PromptBank, key, Get(PromptBank, defaultKey, ""))
  }

  /** `get_all_prompts()`: the bank itself. */
  function GetAllPrompts(): (bank: map<string, string>)
    ensures bank.Keys == PromptKeys
    ensures forall k :: k in bank ==> bank[k] == GetPrompt(k)
  {
    PromptBank
  }

  /** Every prompt of the bank is a non-empty text. */
  lemma PromptsNonEmpty()
    ensures PromptBank.Keys == PromptKeys
    ensures forall k :: k in PromptBank ==> |PromptBank[k]| > 0
  {
  }

  /** A lookup yields a prompt of the bank or, only when neither key is
      known, the empty string. */
  lemma GetPromptFromBank(key: string, defaultKey: string)
    ensures GetPrompt(key, defaultKey) in PromptBank.Values
         || (GetPrompt(key, defaultKey) == "" && key !in PromptBank && defaultKey !in PromptBank)
  {
    if key in PromptBank {
      assert PromptBank[key] in PromptBank.Values;
    } else if defaultKey in PromptBank {
      assert PromptBank[defaultKey] in PromptBank.Values;
    }
  }

  /** With the default fallback key a lookup never yields the empty string:
      an unknown key gets the `default` prompt. */
  lemma DefaultFallbackNeverEmpty(key: string)
    ensures GetPrompt(key) != ""
    ensures key !in PromptKeys ==> GetPrompt(key) == PromptBank["default"]
  {
    PromptsNonEmpty();
  }

  /** The lookup is empty exactly when neither key is in the bank. */
  lemma GetPromptEmptyIff(key: string, defaultKey: string)
    ensures GetPrompt(key, defaultKey) == "" <==> key !in PromptKeys && defaultKey !in PromptKeys
  {
    PromptsNonEmpty();
  }
}

/** `SimpleWordTransformer`: blanks out boring words, ignoring case. */
module WordTransformer {
  import opened DotNet

  /** The boring words, already lowered by the constructor. */
  datatype SimpleWordTransformer = SimpleWordTransformer(boringWords: seq<string>)

  /** The constructor: a null list throws; otherwise every word is kept in
      lower case. */
  function NewSimpleWordTransformer(boringWords: Option<seq<string>>): (r: Result<SimpleWordTransformer>)
    ensures boringWords.None? <==> r.Err?
    ensures r.Err? ==> r.error == ArgumentNullException
    ensures r.Ok? ==> |r.value.boringWords| == |boringWords.value|
    ensures r.Ok? ==> forall i :: 0 <= i < |boringWords.value| ==>
                        r.value.boringWords[i] == ToLower(boringWords.value[i])
  {
    match boringWords
    case None => Err(ArgumentNullException)
    case Some(words) => Ok(SimpleWordTransformer(seq(|words|, i requires 0 <= i < |words| => ToLower(words[i]))))
  }

  /** Some boring word equals the lowered word. */
  predicate IsBoring(t: SimpleWordTransformer, word: string) {
    exists i :: 0 <= i < |t.boringWords| && t.boringWords[i] == ToLower(word)
  }

  /** `GetTransformedWord`: the empty string for a boring word, the word
      itself otherwise. */
  function GetTransformedWord(t: SimpleWordTransformer, word: string): (r: string)
    ensures r == "" || r == word
    ensures IsBoring(t, word) ==> r == ""
    ensures !IsBoring(t, word) ==> r == word
  {
    if exists i :: 0 <= i < |t.boringWords| && t.boringWords[i] == ToLower(word) then "" else word
  }

  /** Transforming an already transformed word changes nothing. */
  lemma TransformIdempotent(t: SimpleWordTransformer, word: string)
    ensures GetTransformedWord(t, GetTransformedWord(t, word)) == GetTransformedWord(t, word)
  {
  }

  /** Words that lower to the same string get the same treatment. */
  lemma SameLowerCaseSameDecision(t: SimpleWordTransformer, a: string, b: string)
    requires ToLower(a) == ToLower(b)
    ensures IsBoring(t, a) <==> IsBoring(t, b)
  {
  }

  /** For a transformer built from a list, a non-empty word is blanked out
      exactly when it equals some listed word once both are lowered, so
      matching ignores case on both sides. */
  lemma {:induction false} BlankedIffBoringIgnoringCase(boringWords: seq<string>, word: string)
    requires word != ""
    ensures var t := NewSimpleWordTransformer(Some(boringWords)).value;
            GetTransformedWord(t, word) == "" <==>
              exists i :: 0 <= i < |boringWords| && ToLower(boringWords[i]) == ToLower(word)
  {
    var t := NewSimpleWordTransformer(Some(boringWords)).value;
    if exists i :: 0 <= i < |boringWords| && ToLower(boringWords[i]) == ToLower(word) {
      var i :| 0 <= i < |boringWords| && ToLower(boringWords[i]) == ToLower(word);
      assert t.boringWords[i] == ToLower(word);
    }
  }
}

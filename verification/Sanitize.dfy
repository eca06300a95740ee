/** Removing secret-shaped keys from JSON trees, as packages are sanitised before they are exported. */
module Sanitize {
  import opened Options

  /** A decoded JSON value; numbers keep their text. */
  datatype Json =
    | Null
    | Bool(b: bool)
    | Number(text: string)
    | String(s: string)
    | Array(items: seq<Json>)
    | Object(fields: map<string, Json>)

  // ----- which keys -----

  /** ASCII lower case, and the two letters outside ASCII that fold to s and k. */
  function Fold(c: char): char {
    if 'A' <= c <= 'Z' then (c as int + 32) as char
    else if c == '\U{17f}' then 's'
    else if c == '\U{212a}' then 'k'
    else c
  }

  function Folded(s: string): string { seq(|s|, i requires 0 <= i < |s| => Fold(s[i])) }

  predicate Contains(s: string, part: string) { exists i | 0 <= i <= |s| :: part <= s[i..] }

  /** A word, one optional dash or underscore, and "key". */
  predicate ContainsKeyword(s: string, word: string) {
    Contains(s, word + "key") || Contains(s, word + "_key") || Contains(s, word + "-key")
  }

  predicate IsSecretKey(k: string) {
    var s := Folded(k);
    || Contains(s, "secret") || Contains(s, "token") || Contains(s, "password") || ContainsKeyword(s, "api")
    || Contains(s, "credential") || Contains(s, "refresh") || ContainsKeyword(s, "private")
    || ContainsKeyword(s, "access") || Contains(s, "authorization")
  }

  const EngineAllow: set<string> := {
    "structured_model", "graph_definition", "writer_style", "writer_audience", "writer_industry", "writer_focus",
    "writer_destination"
  }

  // ----- the rewrite -----

  function SanitizeValue(v: Json): Json {
    match v
    case Object(fields) => Object(map k | k in fields && !IsSecretKey(k) :: SanitizeValue(fields[k]))
    case Array(items) => Array(seq(|items|, i requires 0 <= i < |items| => SanitizeValue(items[i])))
    case _ => v
  }

  function SanitizeMap(m: map<string, Json>): map<string, Json> {
    map k | k in m && !IsSecretKey(k) :: SanitizeValue(m[k])
  }

  /** A missing config becomes an empty one. */
  function SanitizeEngineConfig(config: Option<map<string, Json>>): map<string, Json> {
    if config.None? then map[]
    else map k | k in config.value && k in EngineAllow :: SanitizeValue(config.value[k])
  }

  // ----- no secret key is left -----

  /** A secret-shaped key occurs somewhere in the tree. */
  ghost predicate HasSecretKey(v: Json) {
    match v
    case Object(fields) => exists k <- fields :: IsSecretKey(k) || HasSecretKey(fields[k])
    case Array(items) => exists i | 0 <= i < |items| :: HasSecretKey(items[i])
    case _ => false
  }

  lemma {:induction false} SanitizedHasNoSecretKey(v: Json)
    ensures !HasSecretKey(SanitizeValue(v))
  {
    match v
    case Object(fields) =>
      forall k | k in fields && !IsSecretKey(k) ensures !HasSecretKey(SanitizeValue(fields[k])) {
        SanitizedHasNoSecretKey(fields[k]);
      }
    case Array(items) =>
      forall i | 0 <= i < |items| ensures !HasSecretKey(SanitizeValue(items[i])) {
        SanitizedHasNoSecretKey(items[i]);
      }
    case _ =>
  }

  /** Sanitising changes exactly the trees that hold a secret-shaped key. */
  lemma {:induction false} CleanIsFixed(v: Json)
    ensures SanitizeValue(v) == v <==> !HasSecretKey(v)
  {
    match v
    case Object(fields) =>
      forall k <- fields ensures SanitizeValue(fields[k]) == fields[k] <==> !HasSecretKey(fields[k]) {
        CleanIsFixed(fields[k]);
      }
      var kept := map k | k in fields && !IsSecretKey(k) :: SanitizeValue(fields[k]);
      if !HasSecretKey(v) {
        assert kept == fields;
      } else {
        var k :| k in fields && (IsSecretKey(k) || HasSecretKey(fields[k]));
        assert k !in kept || kept[k] != fields[k];
      }
    case Array(items) =>
      forall i | 0 <= i < |items| ensures SanitizeValue(items[i]) == items[i] <==> !HasSecretKey(items[i]) {
        CleanIsFixed(items[i]);
      }
      var kept := seq(|items|, i requires 0 <= i < |items| => SanitizeValue(items[i]));
      if !HasSecretKey(v) {
        assert kept == items;
      } else {
        var i :| 0 <= i < |items| && HasSecretKey(items[i]);
        assert kept[i] != items[i];
      }
    case _ =>
  }

  lemma SanitizingTwice(v: Json)
    ensures SanitizeValue(SanitizeValue(v)) == SanitizeValue(v)
  {
    SanitizedHasNoSecretKey(v);
    CleanIsFixed(SanitizeValue(v));
  }

  // ----- what survives -----

  datatype Move = Key(k: string) | Index(i: nat)

  /** The value at the end of a path into the tree. */
  ghost function At(v: Json, path: seq<Move>): Option<Json>
    decreases |path|
  {
    if path == [] then Some(v)
    else
      match (path[0], v)
      case (Key(k), Object(fields)) => if k in fields then At(fields[k], path[1..]) else None
      case (Index(i), Array(items)) => if i < |items| then At(items[i], path[1..]) else None
      case _ => None
  }

  /** No key on the path is secret-shaped. */
  ghost predicate KeptPath(path: seq<Move>) { forall m <- path :: m.Key? ==> !IsSecretKey(m.k) }

  /**
   * A path leads somewhere in the sanitised tree exactly when it did in the original and passes no secret-shaped key;
   * what it leads to is then the sanitised original, so a value without secret-shaped keys survives unchanged.
   */
  lemma {:induction false} SanitizedAt(v: Json, path: seq<Move>)
    ensures At(SanitizeValue(v), path)
            == if KeptPath(path) && At(v, path).Some? then Some(SanitizeValue(At(v, path).value)) else None
    decreases |path|
  {
    if path != [] {
      assert path == [path[0]] + path[1..];
      match (path[0], v)
      case (Key(k), Object(fields)) =>
        if k in fields {
          SanitizedAt(fields[k], path[1..]);
        }
      case (Index(i), Array(items)) =>
        if i < |items| {
          SanitizedAt(items[i], path[1..]);
        }
      case _ =>
    }
  }

  // ----- engine configs -----

  /** The first three letters of the words that make a key secret-shaped. */
  predicate StartsSecretWord(a: char, b: char, c: char) {
    || (a == 's' && b == 'e' && c == 'c') || (a == 't' && b == 'o' && c == 'k') || (a == 'p' && b == 'a' && c == 's')
    || (a == 'a' && b == 'p' && c == 'i') || (a == 'c' && b == 'r' && c == 'e') || (a == 'r' && b == 'e' && c == 'f')
    || (a == 'p' && b == 'r' && c == 'i') || (a == 'a' && b == 'c' && c == 'c') || (a == 'a' && b == 'u' && c == 't')
  }

  predicate NoSecretStart(s: string, i: nat := 0)
    decreases |s| - i
  {
    i + 2 >= |s| || (!StartsSecretWord(s[i], s[i + 1], s[i + 2]) && NoSecretStart(s, i + 1))
  }

  lemma {:induction false} NoSecretStartAt(s: string, i: nat, j: nat)
    requires NoSecretStart(s, i) && i <= j && j + 2 < |s|
    ensures !StartsSecretWord(s[j], s[j + 1], s[j + 2])
    decreases j - i
  {
    if i < j {
      NoSecretStartAt(s, i + 1, j);
    }
  }

  lemma WordStarts(s: string, word: string)
    requires NoSecretStart(s) && |word| >= 3 && StartsSecretWord(word[0], word[1], word[2])
    ensures !Contains(s, word)
  {
    forall i | 0 <= i <= |s| ensures !(word <= s[i..]) {
      if i + 2 < |s| {
        NoSecretStartAt(s, 0, i);
      }
    }
  }

  lemma KeywordStarts(s: string, word: string)
    requires NoSecretStart(s) && |word| >= 3 && StartsSecretWord(word[0], word[1], word[2])
    ensures !ContainsKeyword(s, word)
  {
    WordStarts(s, word + "key");
    WordStarts(s, word + "_key");
    WordStarts(s, word + "-key");
  }

  lemma NotSecret(k: string)
    requires Folded(k) == k && NoSecretStart(k)
    ensures !IsSecretKey(k)
  {
    WordStarts(k, "secret");
    WordStarts(k, "token");
    WordStarts(k, "password");
    KeywordStarts(k, "api");
    WordStarts(k, "credential");
    WordStarts(k, "refresh");
    KeywordStarts(k, "private");
    KeywordStarts(k, "access");
    WordStarts(k, "authorization");
  }

  predicate LowerCase(s: string) { forall i | 0 <= i < |s| :: 'a' <= s[i] <= 'z' || s[i] == '_' }

  lemma LowerCaseFolds(s: string)
    requires LowerCase(s)
    ensures Folded(s) == s
  {
  }

  lemma AllowedKeysAreLowerCase(k: string)
    requires k in EngineAllow
    ensures LowerCase(k)
  {
  }

  lemma AllowedKeysHoldNoStart(k: string)
    requires k in EngineAllow
    ensures NoSecretStart(k)
  {
    StructuredModelHoldsNoStart();
    GraphDefinitionHoldsNoStart();
    WriterKeysHoldNoStart();
    WriterTargetsHoldNoStart();
    hide NoSecretStart;
  }

  lemma StructuredModelHoldsNoStart()
    ensures NoSecretStart("structured_model")
  {
  }

  lemma GraphDefinitionHoldsNoStart()
    ensures NoSecretStart("graph_definition")
  {
  }

  lemma WriterTargetsHoldNoStart()
    ensures NoSecretStart("writer_focus") && NoSecretStart("writer_destination")
  {
  }

  lemma WriterKeysHoldNoStart()
    ensures NoSecretStart("writer_style") && NoSecretStart("writer_audience") && NoSecretStart("writer_industry")
  {
  }

  /** No key on the allow-list is secret-shaped, so allowing it never lets a secret through. */
  lemma AllowedKeysAreNotSecret(k: string)
    requires k in EngineAllow
    ensures !IsSecretKey(k)
  {
    hide IsSecretKey, Folded, NoSecretStart;
    AllowedKeysAreLowerCase(k);
    LowerCaseFolds(k);
    AllowedKeysHoldNoStart(k);
    NotSecret(k);
  }

  /** The rewritten config holds allowed keys only, and no secret-shaped key at any depth. */
  lemma EngineConfigHasNoSecret(config: Option<map<string, Json>>)
    ensures SanitizeEngineConfig(config).Keys <= EngineAllow
    ensures !HasSecretKey(Object(SanitizeEngineConfig(config)))
  {
    if config.Some? {
      var out := SanitizeEngineConfig(config);
      forall k <- out ensures !IsSecretKey(k) && !HasSecretKey(out[k]) {
        AllowedKeysAreNotSecret(k);
        SanitizedHasNoSecretKey(config.value[k]);
      }
    }
  }

  lemma EngineConfigTwice(config: Option<map<string, Json>>)
    ensures SanitizeEngineConfig(Some(SanitizeEngineConfig(config))) == SanitizeEngineConfig(config)
  {
    var once := SanitizeEngineConfig(config);
    forall k <- once ensures SanitizeValue(once[k]) == once[k] {
      SanitizingTwice(config.value[k]);
    }
  }

  /**
   * A path into the rewritten config leads somewhere exactly when its first key is allowed and the rest passes no
   * secret-shaped key, and then to what it led to before, sanitised.
   */
  lemma EngineConfigAt(config: map<string, Json>, k: string, path: seq<Move>)
    ensures At(Object(SanitizeEngineConfig(Some(config))), [Key(k)] + path)
            == if k in EngineAllow && KeptPath(path) && At(Object(config), [Key(k)] + path).Some?
               then Some(SanitizeValue(At(Object(config), [Key(k)] + path).value)) else None
  {
    assert ([Key(k)] + path)[1..] == path;
    if k in config {
      SanitizedAt(config[k], path);
    }
  }

  // ----- the preview's check -----

  /** The secret-shaped keys of the tree that the check reports: the allow-list excuses a key at any depth. */
  ghost predicate Reported(v: Json, key: string) {
    match v
    case Object(fields) => exists k <- fields :: (k == key && IsSecretKey(k) && k !in EngineAllow) || Reported(fields[k], key)
    case Array(items) => exists i | 0 <= i < |items| :: Reported(items[i], key)
    case _ => false
  }

  /** The recursive walk that collects them, visiting the keys of an object in any order. */
  method Walk(v: Json, found: seq<string>) returns (out: seq<string>)
    ensures found <= out
    ensures forall key :: key in out <==> key in found || Reported(v, key)
    decreases v
  {
    out := found;
    match v {
      case Object(fields) =>
        var left := fields.Keys;
        while left != {}
          invariant left <= fields.Keys && found <= out
          invariant forall key :: key in out <==> key in found || exists k <- fields.Keys - left ::
                        (k == key && IsSecretKey(k) && k !in EngineAllow) || Reported(fields[k], key)
          decreases left
        {
          var k :| k in left;
          if IsSecretKey(k) && k !in EngineAllow {
            out := out + [k];
          }
          out := Walk(fields[k], out);
          left := left - {k};
        }
      case Array(items) =>
        for i := 0 to |items|
          invariant found <= out
          invariant forall key :: key in out <==> key in found || exists j | 0 <= j < i :: Reported(items[j], key)
        {
          out := Walk(items[i], out);
        }
      case _ =>
    }
  }

  /** The check reports a key exactly when the tree has a secret-shaped key: the allow-list excuses none of them. */
  lemma {:induction false} ReportedIff(v: Json)
    ensures (exists key :: Reported(v, key)) <==> HasSecretKey(v)
  {
    match v
    case Object(fields) =>
      forall k <- fields ensures (exists key :: Reported(fields[k], key)) <==> HasSecretKey(fields[k]) {
        ReportedIff(fields[k]);
      }
      if HasSecretKey(v) {
        var k :| k in fields && (IsSecretKey(k) || HasSecretKey(fields[k]));
        if IsSecretKey(k) {
          assert k !in EngineAllow by {
            if k in EngineAllow {
              AllowedKeysAreNotSecret(k);
            }
          }
          assert Reported(v, k);
        } else {
          var key :| Reported(fields[k], key);
          assert Reported(v, key);
        }
      }
    case Array(items) =>
      forall i | 0 <= i < |items| ensures (exists key :: Reported(items[i], key)) <==> HasSecretKey(items[i]) {
        ReportedIff(items[i]);
      }
      if HasSecretKey(v) {
        var i :| 0 <= i < |items| && HasSecretKey(items[i]);
        var key :| Reported(items[i], key);
        assert Reported(v, key);
      }
    case _ =>
  }

  lemma SomethingIn(keys: seq<string>)
    ensures keys != [] ==> exists k :: k in keys
  {
    if keys != [] {
      assert keys[0] in keys;
    }
  }

  /**
   * The first gates of a preview: the package is sanitised, then checked for secrets. Whatever config comes in, the
   * check finds nothing, so the branch that refuses a package for holding a secret is never taken.
   */
  method CheckSanitized(config: Option<map<string, Json>>) returns (clean: map<string, Json>, refused: bool)
    ensures clean == SanitizeEngineConfig(config)
    ensures !refused
  {
    clean := SanitizeEngineConfig(config);
    var keys := Walk(Object(clean), []);
    EngineConfigHasNoSecret(config);
    ReportedIff(Object(clean));
    assert forall key :: key !in keys by {
      assert forall key :: !Reported(Object(clean), key);
    }
    SomethingIn(keys);
    refused := |keys| > 0;
  }

  // ----- the pattern -----

  /** The character reads as the lower-case letter when case is ignored. */
  predicate SameLetter(c: char, l: char) {
    || c == l || ('a' <= l <= 'z' && c as int == l as int - 32)
    || (l == 's' && c == '\U{17f}') || (l == 'k' && c == '\U{212a}')
  }

  /** The word occurs in the key, case ignored. */
  ghost predicate OccursAt(k: string, word: string, i: nat) {
    i + |word| <= |k| && forall j | 0 <= j < |word| :: SameLetter(k[i + j], word[j])
  }

  ghost predicate Occurs(k: string, word: string) { exists i: nat :: OccursAt(k, word, i) }

  /** The alternatives of the pattern, spelled out. */
  const SECRET_WORDS: seq<string> := [
    "secret", "token", "password", "apikey", "api_key", "api-key", "credential", "refresh", "privatekey",
    "private_key", "private-key", "accesskey", "access_key", "access-key", "authorization"
  ]

  lemma FoldsTo(c: char, l: char)
    requires !('A' <= l <= 'Z') && l != '\U{17f}' && l != '\U{212a}'
    ensures Fold(c) == l <==> SameLetter(c, l)
  {
  }

  ghost predicate LowerWord(word: string) {
    forall j | 0 <= j < |word| :: !('A' <= word[j] <= 'Z') && word[j] != '\U{17f}' && word[j] != '\U{212a}'
  }

  lemma ContainsIff(k: string, word: string)
    requires LowerWord(word)
    ensures Contains(Folded(k), word) <==> Occurs(k, word)
  {
    var s := Folded(k);
    forall i: nat ensures (i <= |s| && word <= s[i..]) <==> OccursAt(k, word, i) {
      if i + |word| <= |k| {
        forall j | 0 <= j < |word| ensures s[i..][j] == word[j] <==> SameLetter(k[i + j], word[j]) {
          FoldsTo(k[i + j], word[j]);
        }
      }
    }
    hide SameLetter, Folded;
  }

  lemma FirstWordsAreLower()
    ensures LowerWord("secret") && LowerWord("token") && LowerWord("password")
    ensures LowerWord("apikey") && LowerWord("api_key")
  {
  }

  lemma MiddleWordsAreLower()
    ensures LowerWord("api-key") && LowerWord("credential") && LowerWord("refresh")
    ensures LowerWord("privatekey") && LowerWord("private_key")
  {
  }

  lemma LastWordsAreLower()
    ensures LowerWord("private-key") && LowerWord("accesskey") && LowerWord("access_key")
    ensures LowerWord("access-key") && LowerWord("authorization")
  {
  }

  lemma WordsAreLower(w: string)
    requires w in SECRET_WORDS
    ensures LowerWord(w)
  {
    FirstWordsAreLower();
    MiddleWordsAreLower();
    LastWordsAreLower();
    hide LowerWord;
  }

  /** A key is secret-shaped exactly when one of the words occurs in it, in whatever case. */
  lemma IsSecretKeyIff(k: string)
    ensures IsSecretKey(k) <==> exists w <- SECRET_WORDS :: Occurs(k, w)
  {
    forall w | w in SECRET_WORDS ensures Contains(Folded(k), w) <==> Occurs(k, w) {
      WordsAreLower(w);
      ContainsIff(k, w);
    }
    hide Contains, Folded, Occurs, LowerWord;
    KeywordsSpelledOut();
    SomeWord(w => Contains(Folded(k), w));
  }

  lemma SomeWord(p: string -> bool)
    ensures (exists w <- SECRET_WORDS :: p(w))
            <==> || p("secret") || p("token") || p("password") || p("apikey") || p("api_key") || p("api-key")
                 || p("credential") || p("refresh") || p("privatekey") || p("private_key") || p("private-key")
                 || p("accesskey") || p("access_key") || p("access-key") || p("authorization")
  {
    var ws := SECRET_WORDS;
    assert ws[0] == "secret" && ws[1] == "token" && ws[2] == "password" && ws[3] == "apikey" && ws[4] == "api_key";
    assert ws[5] == "api-key" && ws[6] == "credential" && ws[7] == "refresh" && ws[8] == "privatekey";
    assert ws[9] == "private_key" && ws[10] == "private-key" && ws[11] == "accesskey" && ws[12] == "access_key";
    assert ws[13] == "access-key" && ws[14] == "authorization" && |ws| == 15;
  }

  lemma KeywordsSpelledOut()
    ensures "api" + "key" == "apikey" && "api" + "_key" == "api_key" && "api" + "-key" == "api-key"
    ensures "private" + "key" == "privatekey" && "private" + "_key" == "private_key" && "private" + "-key" == "private-key"
    ensures "access" + "key" == "accesskey" && "access" + "_key" == "access_key" && "access" + "-key" == "access-key"
  {
  }
}

/**
 * The kolscan embedded payload: the page's inline `<script>` texts that push chunks of the
 * Next.js flight data are cleaned and concatenated, and the JSON text between
 * `"initialData":` and `"initialUserData":` is cut out and its empty-string sentinels rewritten,
 * ready to be decoded as a list.
 */
module KolscanPayload {
  import opened Wrappers
  import opened Text

  const PushMarker: string := "self.__next_f.push"
  const PushOpen: string := "self.__next_f.push(["
  const PushClose: string := "]);"
  const ChunkPrefix: string := "1,"
  const ChunkClose: string := "])"
  const DataMarker: string := "\"initialData\":"
  const UserDataMarker: string := "\"initialUserData\":"
  const EmptyTelegram: string := ",\"telegram\":\"\""
  const NullTelegram: string := ",\"telegram\":null"
  const EmptyString: string := "\"\""

  /** A pushing script's text with the push call's brackets and the chunk's `1,` tag removed. */
  function Cleaned(text: string): string
  {
    var c := ReplaceAll(ReplaceAll(text, PushOpen, ""), PushClose, "");
    var c' := if ChunkPrefix <= c then c[|ChunkPrefix|..] else c;
    ReplaceAll(c', ChunkClose, "")
  }

  /**
   * What one script adds to the combined text: its cleaned text when it has a string that
   * mentions the push call (`script.string` is `None` for a tag without a single text child).
   */
  function Contribution(script: Option<string>): string
  {
    if script.Some? && Contains(script.value, PushMarker) then Cleaned(script.value) else ""
  }

  /** `combined_push_content` after the script loop: the contributions in document order. */
  function Combined(scripts: seq<Option<string>>): string
  {
    ConcatMap(scripts, Contribution)
  }

  /** The script loop of `extract_data`, accumulating `combined_push_content`. */
  method CombinePushContent(scripts: seq<Option<string>>) returns (combined: string)
    ensures combined == Combined(scripts)
  {
    combined := "";
    for i := 0 to |scripts|
      invariant combined == Combined(scripts[..i])
    {
      assert scripts[..i + 1][..i] == scripts[..i];
      var script := scripts[i];
      if script.Some? && Contains(script.value, PushMarker) {
        var cleaned := ReplaceAll(ReplaceAll(script.value, PushOpen, ""), PushClose, "");
        if ChunkPrefix <= cleaned {
          cleaned := cleaned[|ChunkPrefix|..];
        }
        combined := combined + ReplaceAll(cleaned, ChunkClose, "");
      }
    }
    assert scripts[..|scripts|] == scripts;
  }

  /** A script without text, or whose text does not mention the push call, adds nothing. */
  lemma OnlyPushScriptsCount(a: seq<Option<string>>, script: Option<string>, b: seq<Option<string>>)
    requires script.None? || !Contains(script.value, PushMarker)
    ensures Combined(a + [script] + b) == Combined(a + b)
  {
    assert Contribution(script) == [];
    ConcatMapSkip(a, script, b, Contribution);
  }

  /** A body without `])` loses just the trailing `])` when every `])` is deleted. */
  lemma ChunkCloseRemoved(body: string)
    requires !Contains(body, ChunkClose)
    ensures ReplaceAll(body + ChunkClose, ChunkClose, "") == body
  {
    var s := body + ChunkClose;
    forall j: nat | j < |body| ensures !OccursAt(s, ChunkClose, j) {
      if j + 2 <= |body| {
        assert s[j..j + 2] == body[j..j + 2];
        assert !OccursAt(body, ChunkClose, j);
      } else {
        assert s[j + 1] == s[j..j + 2][1];
      }
    }
    ReplaceUpTo(s, ChunkClose, "", |body|);
    assert s[..|body|] == body && s[|body|..] == ChunkClose;
    ReplaceLeading(ChunkClose, "", "");
    assert ChunkClose + "" == ChunkClose;
  }

  /**
   * A chunk script `self.__next_f.push([1,BODY])` contributes exactly BODY, brackets included,
   * as long as the cleaning has nothing else to remove: the push call's opening and `]);` do
   * not occur after the call, and BODY holds no `])` of its own.
   */
  lemma ChunkContributesBody(body: string)
    requires !Contains(ChunkPrefix + body + ChunkClose, PushOpen)
    requires !Contains(ChunkPrefix + body + ChunkClose, PushClose)
    requires !Contains(body, ChunkClose)
    ensures Contribution(Some(PushOpen + ChunkPrefix + body + ChunkClose)) == body
  {
    var rest := ChunkPrefix + body + ChunkClose;
    assert PushOpen + ChunkPrefix + body + ChunkClose == PushOpen + rest;
    PushCallMarked(rest);
    PushCallCleaned(body);
  }

  /** A text that starts with the push call's opening mentions the push call. */
  lemma PushCallMarked(rest: string)
    ensures Contains(PushOpen + rest, PushMarker)
  {
    var text := PushOpen + rest;
    assert text[..|PushMarker|] == PushMarker;
    assert OccursAt(text, PushMarker, 0);
  }

  /** The cleaning steps applied to a chunk call whose body leaves them nothing else to remove. */
  lemma PushCallCleaned(body: string)
    requires !Contains(ChunkPrefix + body + ChunkClose, PushOpen)
    requires !Contains(ChunkPrefix + body + ChunkClose, PushClose)
    requires !Contains(body, ChunkClose)
    ensures Cleaned(PushOpen + (ChunkPrefix + body + ChunkClose)) == body
  {
    var rest := ChunkPrefix + body + ChunkClose;
    CallRemoved(PushOpen, PushClose, rest);
    assert ChunkPrefix <= rest;
    assert rest[|ChunkPrefix|..] == body + ChunkClose;
    ChunkCloseRemoved(body);
  }

  /** Removing a leading `open` and every `close` from `open + rest` leaves `rest` when neither recurs. */
  lemma CallRemoved(open: string, close: string, rest: string)
    requires open != [] && close != []
    requires !Contains(rest, open) && !Contains(rest, close)
    ensures ReplaceAll(ReplaceAll(open + rest, open, ""), close, "") == rest
  {
    ReplaceLeading(open, rest, "");
    ReplaceAbsent(rest, open, "");
    ReplaceAbsent(rest, close, "");
    assert "" + ReplaceAll(rest, open, "") == rest;
  }

  /**
   * The payload cut out of the combined text once its backslashes are removed: what follows the
   * first `"initialData":`, up to a second one, cut before the first `"initialUserData":`.
   * `None` where `split('"initialData":')[1]` raises IndexError.
   */
  function Payload(combined: string): Option<string>
  {
    Between(Without(combined, {'\\'}), DataMarker, UserDataMarker)
  }

  /**
   * A payload is the start of the unescaped text after its first data marker, stopping where
   * that text ends or where a second data marker or the first user-data marker starts in it; it
   * contains neither marker and no backslash.
   */
  lemma PayloadBetweenMarkers(combined: string, i: nat, p: string)
    requires Find(Without(combined, {'\\'}), DataMarker) == Some(i)
    requires Payload(combined) == Some(p)
    ensures var rest := Without(combined, {'\\'})[i + |DataMarker|..];
            && p <= rest
            && !Contains(p, DataMarker) && !Contains(p, UserDataMarker) && '\\' !in p
            && (|p| == |rest| || OccursAt(rest, DataMarker, |p|) || OccursAt(rest, UserDataMarker, |p|))
  {
    var t := Without(combined, {'\\'});
    BetweenSeparators(t, DataMarker, UserDataMarker, i, p);
    assert forall k :: 0 <= k < |p| ==> p[k] == t[i + |DataMarker| + k];
  }

  /** The payload is missing, and the window fails, exactly when the data marker is absent. */
  lemma PayloadNeedsMarker(combined: string)
    ensures Payload(combined).None? <==> !Contains(Without(combined, {'\\'}), DataMarker)
  {
    BetweenExists(Without(combined, {'\\'}), DataMarker, UserDataMarker);
  }

  predicate IsComma(c: char)
  {
    c == ','
  }

  /**
   * The sentinel rewrite: every `,"telegram":""` becomes `,"telegram":null`, every remaining
   * `""` is deleted, and trailing commas are stripped.
   */
  function Rewritten(payload: string): string
  {
    RStrip(ReplaceAll(ReplaceAll(payload, EmptyTelegram, NullTelegram), EmptyString, ""), IsComma)
  }

  /** After the rewrite no empty string, hence no empty Telegram handle, and no trailing comma remain. */
  lemma RewrittenClean(payload: string)
    ensures !Contains(Rewritten(payload), EmptyString)
    ensures !Contains(Rewritten(payload), EmptyTelegram)
    ensures Rewritten(payload) == [] || Rewritten(payload)[|Rewritten(payload)| - 1] != ','
  {
    var s := ReplaceAll(ReplaceAll(payload, EmptyTelegram, NullTelegram), EmptyString, "");
    var r := Rewritten(payload);
    assert EmptyString == ['"', '"'];
    PairRemovalLeavesNoPair(ReplaceAll(payload, EmptyTelegram, NullTelegram), '"');
    assert r <= s;
    PrefixKeepsAbsence(s, r, EmptyString);
    if Contains(r, EmptyTelegram) {
      assert EmptyTelegram[|EmptyTelegram| - 2..|EmptyTelegram|] == EmptyString;
      ContainsPiece(r, EmptyTelegram, |EmptyTelegram| - 2, 2);
      assert false;
    }
  }

  /** A text the rewrite already leaves clean is kept as it is. */
  lemma RewrittenKeepsClean(payload: string)
    requires !Contains(payload, EmptyString)
    requires payload == [] || payload[|payload| - 1] != ','
    ensures Rewritten(payload) == payload
  {
    if Contains(payload, EmptyTelegram) {
      assert EmptyTelegram[|EmptyTelegram| - 2..|EmptyTelegram|] == EmptyString;
      ContainsPiece(payload, EmptyTelegram, |EmptyTelegram| - 2, 2);
      assert false;
    }
    ReplaceAbsent(payload, EmptyTelegram, NullTelegram);
    ReplaceAbsent(payload, EmptyString, "");
  }

  /** The rewrite is idempotent. */
  lemma RewrittenIdempotent(payload: string)
    ensures Rewritten(Rewritten(payload)) == Rewritten(payload)
  {
    RewrittenClean(payload);
    RewrittenKeepsClean(Rewritten(payload));
  }

  /**
   * The rewrite turns an empty Telegram handle into `null` rather than deleting it: around one
   * `,"telegram":""`, in text that holds no `""` and does not end in a comma, that field becomes
   * `,"telegram":null` and the rest is kept.
   */
  lemma TelegramBecomesNull(a: string, b: string)
    requires !Contains(a, EmptyString) && !Contains(b, EmptyString)
    requires b == [] || b[|b| - 1] != ','
    ensures Rewritten(a + EmptyTelegram + b) == a + NullTelegram + b
  {
    var t := a + NullTelegram + b;
    assert ReplaceAll(a + EmptyTelegram + b, EmptyTelegram, NullTelegram) == t by {
      TelegramReplaced(a, b);
    }
    assert !Contains(t, EmptyString) by {
      NoEmptyStringAround(a, b);
    }
    ReplaceAbsent(t, EmptyString, "");
    assert t[|t| - 1] != ',';
  }

  /** Text without `""` holds no empty Telegram handle, since the handle ends in `""`. */
  lemma NoEmptyTelegram(s: string)
    requires !Contains(s, EmptyString)
    ensures !Contains(s, EmptyTelegram)
  {
    if Contains(s, EmptyTelegram) {
      assert EmptyTelegram[|EmptyTelegram| - 2..|EmptyTelegram|] == EmptyString;
      ContainsPiece(s, EmptyTelegram, |EmptyTelegram| - 2, 2);
      assert false;
    }
  }

  /** The first replace rewrites the one empty handle and copies the text around it. */
  lemma TelegramReplaced(a: string, b: string)
    requires !Contains(a, EmptyString) && !Contains(b, EmptyString)
    ensures ReplaceAll(a + EmptyTelegram + b, EmptyTelegram, NullTelegram) == a + NullTelegram + b
  {
    NoEmptyTelegram(a);
    NoEmptyTelegram(b);
    assert EmptyTelegram[0] !in EmptyTelegram[1..];
    ReplaceOnce(a, EmptyTelegram, NullTelegram, b);
  }

  /**
   * The quotes of `,"telegram":null` are not adjacent and it starts and ends with no quote, so
   * between texts without `""` no `""` appears.
   */
  lemma NoEmptyStringAround(a: string, b: string)
    requires !Contains(a, EmptyString) && !Contains(b, EmptyString)
    ensures !Contains(a + NullTelegram + b, EmptyString)
  {
    var t := a + NullTelegram + b;
    var n := |a| + |NullTelegram|;
    forall i: nat ensures !OccursAt(t, EmptyString, i) {
      if i + 2 <= |t| {
        if i + 2 <= |a| {
          assert t[i..i + 2] == a[i..i + 2];
          assert !OccursAt(a, EmptyString, i);
        } else if i >= n {
          var k := i - n;
          assert t[i..i + 2] == b[k..k + 2];
          assert !OccursAt(b, EmptyString, k);
        } else {
          assert t[i..i + 2] == [t[i], t[i + 1]];
          if i + 1 == |a| {
            assert t[i + 1] == NullTelegram[0];
          } else if i + 1 == n {
            assert t[i] == NullTelegram[|NullTelegram| - 1];
          } else {
            var k := i - |a|;
            assert t[i] == NullTelegram[k] && t[i + 1] == NullTelegram[k + 1];
            if NullTelegram[k] == '"' {
              assert k == 1 || k == 10;
            }
          }
        }
      }
    }
  }

  /** The text handed to `json.loads`: the rewritten payload wrapped in list brackets. */
  function SocialText(scripts: seq<Option<string>>): Option<string>
  {
    match Payload(Combined(scripts))
    case None => None
    case Some(p) => Some("[" + Rewritten(p) + "]")
  }
}

/**
 * Button identifiers and thread names of the ticket flow (bot.js:76, 182,
 * 189-190, 214), together with the JavaScript string operations they use.
 */
module CustomId {
  import opened Wrappers

  /** The fixed category list offered by the `/ticket` command. */
  const Categories: seq<string> := ["Technical Support", "HWID Reset", "Selling"]

  const CreatePrefix: string := "create_ticket_"
  const CloseId: string := "close_ticket"
  const TicketCommand: string := "ticket"
  const NameSeparator: string := " - "

  /** `s.startsWith(p)`. */
  predicate StartsWith(s: string, p: string) {
    |p| <= |s| && s[..|p|] == p
  }

  /** `pat` occurs in `s` starting at index `j`. */
  predicate OccursAt(s: string, pat: string, j: nat) {
    j + |pat| <= |s| && s[j..j + |pat|] == pat
  }

  /** Occurrences in `s[1..]` are the occurrences in `s` shifted by one. */
  lemma OccursShift(s: string, pat: string, j: nat)
    requires |s| > 0
    ensures OccursAt(s, pat, j + 1) <==> OccursAt(s[1..], pat, j)
  {
    if j + 1 + |pat| <= |s| {
      assert s[1..][j..j + |pat|] == s[j + 1..j + 1 + |pat|];
    }
  }

  /** `s.indexOf(pat)`, with `None` for -1: the first index at which `pat` occurs. */
  function IndexOf(s: string, pat: string): (r: Option<nat>)
    ensures r.Some? ==> OccursAt(s, pat, r.value)
    ensures r.Some? ==> forall j: nat :: j < r.value ==> !OccursAt(s, pat, j)
    ensures r.None? ==> forall j: nat :: !OccursAt(s, pat, j)
    decreases |s|
  {
    if |pat| > |s| then None
    else if s[..|pat|] == pat then Some(0)
    else
      assert !OccursAt(s, pat, 0);
      assert forall j: nat :: OccursAt(s, pat, j + 1) <==> OccursAt(s[1..], pat, j) by {
        forall j: nat ensures OccursAt(s, pat, j + 1) <==> OccursAt(s[1..], pat, j) {
          OccursShift(s, pat, j);
        }
      }
      match IndexOf(s[1..], pat)
      case None =>
        assert forall j: nat :: !OccursAt(s, pat, j) by {
          forall j: nat ensures !OccursAt(s, pat, j) {
            if j > 0 { assert !OccursAt(s[1..], pat, j - 1); }
          }
        }
        None
      case Some(i) =>
        assert forall j: nat :: j < i + 1 ==> !OccursAt(s, pat, j) by {
          forall j: nat | j < i + 1 ensures !OccursAt(s, pat, j) {
            if j > 0 { assert !OccursAt(s[1..], pat, j - 1); }
          }
        }
        Some(i + 1)
  }

  /**
   * `s.replace(pat, rep)` with a string pattern and a replacement free of `$`
   * patterns: the first occurrence is replaced, and `s` is returned unchanged
   * when there is none.
   */
  function ReplaceFirst(s: string, pat: string, rep: string): (r: string)
    ensures StartsWith(s, pat) ==> r == rep + s[|pat|..]
    ensures (forall j: nat :: !OccursAt(s, pat, j)) ==> r == s
    ensures forall i: nat :: OccursAt(s, pat, i) && (forall j: nat :: j < i ==> !OccursAt(s, pat, j)) ==>
              r == s[..i] + rep + s[i + |pat|..]
  {
    match IndexOf(s, pat)
    case None => s
    case Some(i) => s[..i] + rep + s[i + |pat|..]
  }

  /** The button id for a category: the create prefix followed by the category. */
  function Encode(category: string): (id: string)
    ensures StartsWith(id, CreatePrefix)
    ensures |id| == |CreatePrefix| + |category|
    ensures id[|CreatePrefix|..] == category
  {
    CreatePrefix + category
  }

  /**
   * The category recovered by the button handler: only an id that starts with
   * the prefix is decoded, and its first occurrence of the prefix is erased.
   */
  function Decode(id: string): (r: Option<string>)
    ensures r.Some? <==> StartsWith(id, CreatePrefix)
    ensures r.Some? ==> r.value == id[|CreatePrefix|..]
  {
    if StartsWith(id, CreatePrefix) then
      assert IndexOf(id, CreatePrefix) == Some(0);
      Some(ReplaceFirst(id, CreatePrefix, ""))
    else None
  }

  /** Decoding the id built for any category yields that category exactly. */
  lemma DecodeEncode(category: string)
    ensures Decode(Encode(category)) == Some(category)
  {
  }

  /** Every decodable id is the encoding of what it decodes to. */
  lemma EncodeDecode(id: string)
    requires Decode(id).Some?
    ensures Encode(Decode(id).value) == id
  {
    assert id == id[..|CreatePrefix|] + id[|CreatePrefix|..];
  }

  /** The round trip holds for each of the offered categories, and distinct categories get distinct ids. */
  lemma CategoriesRoundTrip()
    ensures forall i :: 0 <= i < |Categories| ==> Decode(Encode(Categories[i])) == Some(Categories[i])
    ensures forall i, j :: 0 <= i < j < |Categories| ==> Encode(Categories[i]) != Encode(Categories[j])
  {
    forall i | 0 <= i < |Categories| ensures Decode(Encode(Categories[i])) == Some(Categories[i]) {
      DecodeEncode(Categories[i]);
    }
    forall i, j | 0 <= i < j < |Categories| ensures Encode(Categories[i]) != Encode(Categories[j]) {
      DecodeEncode(Categories[i]);
      DecodeEncode(Categories[j]);
    }
  }

  /** The private thread's name: category, separator, username. */
  function ThreadName(category: string, username: string): (name: string)
    ensures StartsWith(name, category)
    ensures |name| == |category| + |NameSeparator| + |username|
    ensures name[|category|..|category| + |NameSeparator|] == NameSeparator
    ensures name[|category| + |NameSeparator|..] == username
  {
    category + NameSeparator + username
  }

  /** Splitting a thread name at the first separator, the inverse of `ThreadName`. */
  function SplitThreadName(name: string): Option<(string, string)>
  {
    match IndexOf(name, NameSeparator)
    case None => None
    case Some(i) => Some((name[..i], name[i + |NameSeparator|..]))
  }

  /** A category without a hyphen (every offered one) is recovered from the thread name. */
  lemma {:induction false} ThreadNameSplits(category: string, username: string)
    requires forall k :: 0 <= k < |category| ==> category[k] != '-'
    ensures SplitThreadName(ThreadName(category, username)) == Some((category, username))
  {
    var name := ThreadName(category, username);
    assert OccursAt(name, NameSeparator, |category|) by {
      assert name[|category|..|category| + 3] == NameSeparator;
    }
    forall k: nat | k < |category| ensures !OccursAt(name, NameSeparator, k) {
      if k + 3 <= |name| {
        assert name[k..k + 3][1] == name[k + 1];
        if k + 1 < |category| {
          assert name[k + 1] == category[k + 1];
        } else {
          assert name[k + 1] == ' ';
        }
      }
    }
    var r := IndexOf(name, NameSeparator);
    assert r.Some?;
    assert r.value == |category|;
    assert name[..|category|] == category;
  }

  lemma CategoriesHaveNoHyphen()
    ensures forall i, k :: 0 <= i < |Categories| && 0 <= k < |Categories[i]| ==> Categories[i][k] != '-'
  {
  }

  /** The thread name of every offered category splits back into that category and the username. */
  lemma CategoryNamesSplit(i: nat, username: string)
    requires i < |Categories|
    ensures SplitThreadName(ThreadName(Categories[i], username)) == Some((Categories[i], username))
  {
    CategoriesHaveNoHyphen();
    ThreadNameSplits(Categories[i], username);
  }

  /** An id starts with a prefix exactly when it is that prefix followed by some rest. */
  lemma StartsWithConcat(s: string, p: string)
    ensures StartsWith(s, p) <==> exists rest :: s == p + rest
  {
    if StartsWith(s, p) {
      assert s == p + s[|p|..];
    }
  }

  datatype Interaction =
    | SlashCommand(name: string)
    | ButtonPress(customId: string)
    | OtherInteraction

  datatype Action =
    | Ignore
    | ShowPicker(buttonIds: seq<string>)
    | CreateFromCategory(category: string)
    | CloseTicket
    /** A slash command other than `/ticket` has no `customId`, so `startsWith` throws. */
    | Rejected

  /** The branch structure of the `interactionCreate` handler. */
  function Dispatch(it: Interaction): (a: Action)
    ensures it.OtherInteraction? ==> a == Ignore
    ensures a.CreateFromCategory? <==> it.ButtonPress? && StartsWith(it.customId, CreatePrefix)
    ensures a.CreateFromCategory? ==> Encode(a.category) == it.customId
    ensures a == CloseTicket <==> it == ButtonPress(CloseId)
    ensures a.ShowPicker? <==> it == SlashCommand(TicketCommand)
    ensures a == Rejected <==> it.SlashCommand? && it.name != TicketCommand
    ensures it.ButtonPress? && !StartsWith(it.customId, CreatePrefix) && it.customId != CloseId ==> a == Ignore
    ensures a.ShowPicker? ==> |a.buttonIds| == |Categories|
    ensures a.ShowPicker? ==> forall i :: 0 <= i < |Categories| ==> a.buttonIds[i] == Encode(Categories[i])
  {
    match it
    case OtherInteraction => Ignore
    case SlashCommand(name) =>
      if name == TicketCommand then ShowPicker(seq(|Categories|, i requires 0 <= i < |Categories| => Encode(Categories[i])))
      else Rejected
    case ButtonPress(id) =>
      match Decode(id)
      case Some(category) =>
        EncodeDecode(id);
        CreateFromCategory(category)
      case None =>
        if id == CloseId then CloseTicket else Ignore
  }

  /** Every button shown by `/ticket` leads to creating a ticket of its own category. */
  lemma PickerButtonsCreate(i: nat)
    requires i < |Categories|
    ensures Dispatch(SlashCommand(TicketCommand)).ShowPicker?
    ensures Dispatch(ButtonPress(Dispatch(SlashCommand(TicketCommand)).buttonIds[i])) == CreateFromCategory(Categories[i])
  {
    DecodeEncode(Categories[i]);
  }
}

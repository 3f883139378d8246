/** Conversation turns, the length-bounded history window, the system prompt
    and the per-user history store. */
module History {
  import opened Base

  datatype Role = System | User | Assistant

  /** One `{"role": ..., "content": ...}` message. */
  datatype Turn = Turn(role: Role, content: string)

  /** The length limit the orchestrator trims the history to. */
  const MaxHistoryLength := 4000

  /** The persona used when no custom role applies. */
  const DefaultPersona := "Ты полезный ассистент и даёшь только полезную информацию"

  /** The role name that asks for the default persona. */
  const DefaultRoleName := "GPT"

  /** Total number of characters over the contents of `history`. */
  function TotalLength(history: seq<Turn>): nat
    decreases |history|
  {
    if |history| == 0 then 0 else |history[0].content| + TotalLength(history[1..])
  }

  lemma {:induction false} TotalLengthAppend(a: seq<Turn>, b: seq<Turn>)
    ensures TotalLength(a + b) == TotalLength(a) + TotalLength(b)
    decreases |a|
  {
    if |a| > 0 {
      assert (a + b)[1..] == a[1..] + b;
      TotalLengthAppend(a[1..], b);
    } else {
      assert a + b == b;
    }
  }

  /** The turns from index `k` on exceed `maxLength` characters in total. */
  predicate SuffixTooLong(history: seq<Turn>, k: nat, maxLength: int)
    requires k <= |history|
  {
    TotalLength(history[k..]) > maxLength
  }

  /** `trim_history`: drops turns from the front, oldest first, while the
      history is non-empty and its total length exceeds `maxLength`. The
      result is the longest suffix that fits, or empty when none does. */
  function Trim(history: seq<Turn>, maxLength: int): (r: seq<Turn>)
    ensures |r| <= |history| && r == history[|history| - |r|..]
    ensures TotalLength(r) <= maxLength || r == []
    ensures maxLength >= 0 ==> TotalLength(r) <= maxLength
    ensures forall k :: 0 <= k < |history| - |r| ==> SuffixTooLong(history, k, maxLength)
    ensures TotalLength(history) <= maxLength ==> r == history
    decreases |history|
  {
    if |history| > 0 && TotalLength(history) > maxLength then
      var rest := history[1..];
      var r := Trim(rest, maxLength);
      assert forall k :: 1 <= k < |history| - |r| ==> SuffixTooLong(history, k, maxLength) by {
        forall k | 1 <= k < |history| - |r| ensures SuffixTooLong(history, k, maxLength) {
          assert SuffixTooLong(rest, k - 1, maxLength);
          assert history[k..] == rest[k - 1..];
        }
      }
      assert SuffixTooLong(history, 0, maxLength) by {
        assert history[0..] == history;
      }
      r
    else
      history
  }

  /** A last turn that fits on its own survives trimming, and stays last. */
  lemma TrimKeepsLastTurn(history: seq<Turn>, maxLength: int)
    requires |history| > 0 && |history[|history| - 1].content| <= maxLength
    ensures var r := Trim(history, maxLength);
      |r| > 0 && r[|r| - 1] == history[|history| - 1]
  {
  }

  /** Python truthiness of an optional user id: `None` and `0` are false. */
  predicate HasUser(userId: Option<int>) {
    userId.Some? && userId.value != 0
  }

  /** The role text is used as the system prompt exactly when there is a user
      and the role is neither missing, empty nor "GPT". */
  predicate UsesCustomRole(userId: Option<int>, gptRole: Option<string>) {
    HasUser(userId) && gptRole.Some? && gptRole.value != "" && gptRole.value != DefaultRoleName
  }

  /** `get_sys_prompt`: the one-turn system prompt that opens every window. */
  function SysPrompt(userId: Option<int>, gptRole: Option<string>): (r: seq<Turn>)
    ensures |r| == 1 && r[0].role == System
    ensures UsesCustomRole(userId, gptRole) ==> r[0].content == gptRole.value
    ensures !UsesCustomRole(userId, gptRole) ==> r[0].content == DefaultPersona
  {
    if gptRole == Some(DefaultRoleName) || gptRole == None || gptRole == Some("") || !HasUser(userId) then
      [Turn(System, DefaultPersona)]
    else
      [Turn(System, gptRole.value)]
  }

  /** The system prompt is never empty: the default persona is not, and a
      custom role is used only when it is non-empty. Without a user the role
      is ignored. */
  lemma SysPromptIsNeverEmpty(userId: Option<int>, gptRole: Option<string>)
    ensures SysPrompt(userId, gptRole)[0].content != ""
    ensures !HasUser(userId) ==> SysPrompt(userId, gptRole) == SysPrompt(userId, None)
  {
  }

  /** The saved histories, one per user id. */
  type Store = map<int, seq<Turn>>

  /** `load_history_from_json`: a missing user or a missing record is an
      empty history. */
  function Load(store: Store, userId: Option<int>): (h: seq<Turn>)
    ensures !HasUser(userId) ==> h == []
    ensures HasUser(userId) && userId.value !in store ==> h == []
  {
    if HasUser(userId) && userId.value in store then store[userId.value] else []
  }

  /** `save_history`: a no-op without a user. */
  function Save(store: Store, history: seq<Turn>, userId: Option<int>): (r: Store)
    ensures HasUser(userId) ==> Load(r, userId) == history
    ensures !HasUser(userId) ==> r == store
    ensures forall u :: u in store ==> u in r
    ensures forall u :: u in r && !(HasUser(userId) && u == userId.value) ==> u in store && r[u] == store[u]
  {
    if HasUser(userId) then store[userId.value := history] else store
  }
}

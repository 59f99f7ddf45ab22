# Scar case store of the Ciara discipline bot

`bot.py` is a Discord bot that keeps a discipline record ("scars") for each
member of a server. Its state is a single dictionary `data`:

- a global counter `case_id`, which numbers every case ever recorded;
- `users`, which maps `str(member.id)` to that member's ordered list of case
  records `{case, reason, by, time}`;
- `config`, which holds the log channel and the role name for each scar level.

The slash commands change this state:

- `ghiseo` records a scar with a fresh id;
- `goiseo` removes the last one;
- `resetseo` empties a member's list;
- `datkenhlog` sets the log channel;
- `xemseo` shows a member their own list;
- `topseo` ranks the members with the most scars.

Each member's scar count determines a role level and an embed colour.

The model has six modules:

- `Wrappers` (`wrappers.dfy`) holds `Option`, Python's `None`.
- `Decimal` (`decimal.dfy`) models `str(n)` for naturals and the digit
  string of an `04d` field, with the inverse that reads digits back.
- `CaseIds` (`case_ids.dfy`) models `f"#{n:04d}"`, its inverse, and the
  sequence of ids the counter hands out.
- `Tier` (`tier.dfy`) models the role level `min(count, 3)`, the role name
  looked up in `scar_roles`, and the colour table.
- `Ranking` (`ranking.dfy`) models the `topseo` leaderboard. It is a stable
  descending sort, written as an insertion sort, then cut to ten entries,
  then filtered to positive counts.
- `Store` (`case_store.dfy`) models the state as the class `CaseStore`. Its
  fields are the counter, the member lists, the dictionary's insertion order,
  the log channel and the role configuration. Each command is a method.

Two ghost fields hold the invariant `Valid()`:

- `issued` is the list of every id handed out so far. It is always the ids
  for 1..`caseId`.
- `located` maps each stored id to the single position that holds it. From
  it follows that no two stored cases share an id, even after undo and reset.

## Model

| member | source | states |
|---|---|---|
| Decimal.ValueOfDigits | bot.py:62 | reading back the decimal rendering of a member id gives the id |
| Decimal.DigitsInjective | bot.py:62 | two ids have the same `str` rendering exactly when they are equal |
| CaseIds.FormatCaseId | bot.py:54 | an id is `#` followed by at least four characters; its digits, round trip and injectivity are the lemmas below |
| CaseIds.FormatCaseIdShape | bot.py:54 | what follows the `#` is all digits: exactly four below 10000, the plain decimal rendering from 1000 on |
| CaseIds.FormatParseRoundTrip | bot.py:54 | the id of counter value n reads back as n, so the rendering loses nothing |
| CaseIds.FormatCaseIdInjective | bot.py:51-54 | two counter values give the same id exactly when they are equal |
| CaseIds.NextIdIsFresh | bot.py:51-54 | the next id was never handed out before, and it extends the issued list by one |
| CaseIds.IssuedIdsDistinct | bot.py:51-54 | no id is handed out twice |
| CaseIds.IssuedIdsReadBack | bot.py:51-54 | the i-th id handed out reads back as i + 1, so later ids are numerically larger |
| CaseIds.FormatCaseIdExamples | bot.py:54 | counter 1 gives `#0001`, 42 gives `#0042`, 12345 gives `#12345` |
| Tier.Level | bot.py:78-79 | no level at count 0; otherwise a level in 1..3 that equals the count or is the top level 3 |
| Tier.RoleFor | bot.py:78-80 | a role is named only for a positive count, and only a role name from the configuration |
| Tier.Color | bot.py:125 | the colour always comes from the three-entry table; for a positive count it is the entry for `min(count, 3)`, so the 0x8B0000 fallback is never needed there |
| Tier.TierSaturates | bot.py:78-79 | counts of 3 or more share level 3, the same role and the colour 0x0F0F0F |
| Tier.DefaultRoles | bot.py:33-37 | with the default configuration, count 0 gets no role and a positive count gets "Sẹo " followed by its level |
| Tier.LevelMonotone | bot.py:79 | more scars never give a lower level |
| Ranking.Items | bot.py:195 | one entry per key in insertion order, the i-th carrying the i-th key |
| Ranking.ItemsOfMembers | bot.py:195 | when the order lists each member once, the items hold every member with its list length, one entry each, and nothing else |
| Ranking.Positive | bot.py:202 | the filtered leaderboard holds only members with a positive count |
| Ranking.PositiveKeeps | bot.py:202 | the filter keeps exactly the entries with a positive count |
| Ranking.PositiveWithCount | bot.py:202 | for every positive count, the filter keeps all entries with that count, in their order |
| Ranking.WithCountAppend | bot.py:200-202 | picking the entries of one count from two joined lists gives the picks from the first list, then those from the second |
| Ranking.SortDesc | bot.py:194-198 | the sort returns a rearrangement of its input (same entries, same length) that is non-increasing by count; stability is `SortDescCorrect` |
| Ranking.SortDescCorrect | bot.py:194-198 | the sort is a permutation, non-increasing by count, and stable: each count's entries keep insertion order |
| Ranking.PositivePrefix | bot.py:200-202 | on a sorted list, the members with scars form a prefix, followed by a zero count if anything is left |
| Ranking.TopOfSorted | bot.py:198-203 | cutting any stable descending rearrangement to ten and filtering gives a list with all the properties claimed for `Top10` |
| Ranking.TopSubset | bot.py:198-202 | the cut and filtered list holds only entries of the input |
| Ranking.TopStable | bot.py:198-202 | for each count, the shown entries are a prefix of the input's entries with that count, in input order |
| Ranking.TopLeftOut | bot.py:198-202 | a member with scars who is not shown means ten are shown, none with fewer scars |
| Ranking.Top10 | bot.py:194-203 | at most ten entries, non-increasing, all positive, drawn from the members, ties in insertion order; a member with scars who is left out means ten are shown, none with fewer scars |
| Store.UserKey | bot.py:62 | the key is a non-empty digit string that reads back as the member id |
| Store.UserKeyInjective | bot.py:62 | different members never share a case list |
| Store.LocatedIdsDistinct | bot.py:111-119 | if each stored id has one recorded position, no two stored cases share an id |
| Store.AddKeyKeepsOrder | bot.py:63-64 | creating a missing key appends it to the insertion order; updating a present key keeps its place |
| Store.TruncateKeepsIds | bot.py:152 | cutting one list back to a prefix keeps every remaining id at its position |
| Store.AppendFreshKeepsIds | bot.py:114-119 | appending a case whose id is stored nowhere keeps all ids at their positions, the new one last in its list |
| Store.InvNext | bot.py:51-54 | raising the counter keeps the store invariant, and the new id is neither issued before nor stored |
| Store.InvAppend | bot.py:114-119 | appending a case with an issued, unstored id keeps the store invariant |
| Store.InvTruncate | bot.py:148-152 | cutting a list back to a prefix of itself, or creating it empty, keeps the store invariant |
| Store.CaseStore.StoredIdsUnique | bot.py:51-54 | in a valid store every stored id was issued by the counter, and no two stored cases share an id |
| Store.CaseStore.constructor | bot.py:28-41 | the default state: counter 0, no members, no log channel, roles "Sẹo 1..3" |
| Store.CaseStore.NextCaseId | bot.py:51-54 | the counter rises by exactly one; the id returned is the new value's id, never issued before; nothing else changes |
| Store.CaseStore.GetUser | bot.py:61-65 | returns `Lookup(old users, str(id))`, the stored list or the empty list `get_user` creates; a missing member gets that empty list, with its key appended to the insertion order; no other member changes |
| Store.CaseStore.Record | bot.py:108-125 | a non-admin changes nothing; an admin appends exactly one case with the fresh id, reason, recorder and time to that member's list; the reply has the new length, role and colour |
| Store.CaseStore.AppendCase | bot.py:114-119 | appends the case to one member's list; every other list, the counter and the configuration stay as they were |
| Store.CaseStore.PopLast | bot.py:145-154 | a non-admin changes nothing; an empty list is reported and left empty; otherwise only the last case is removed and the count drops by one; the counter is untouched |
| Store.CaseStore.Reset | bot.py:172-177 | a non-admin changes nothing; an admin empties one member's list and the role level becomes none; the counter is untouched |
| Store.CaseStore.SetLogChannel | bot.py:242-245 | a non-admin changes nothing; an admin sets the log channel and nothing else |
| Store.CaseStore.ViewOwn | bot.py:216-226 | the caller's own cases, oldest first, with their count, or the clean notice for an empty list |
| Store.CaseStore.TopBoard | bot.py:194-203 | the leaderboard is `Top10` of the store, and every line shows a member's actual, positive count |
| Store.FirstCaseReply | bot.py:111-125 | the first case in a fresh store is `#0001`, with role "Sẹo 1" and colour 0x8B0000 |
| Store.UndoThenRecord | bot.py:148-152 | recording, undoing and recording again gives the new case `#0002`, not the undone id |
| Store.ResetThenDenied | bot.py:172-175 | after a reset the member's view is clean and the counter keeps its value; a non-admin cannot record |

## Left out

- Discord plumbing is not modelled, because it is network and UI code. This covers intents, command registration, deferring and replying to interactions, `on_ready`, `on_error` and `bot.run`.
- The embeds and their texts are not modelled. A reply is a `Reply` or `History` value carrying the figures the embed shows.
- Role assignment and removal (`update_scar_roles` apart from its level computation) and `send_log` are not modelled, because they are calls into the Discord API. The role the member should end up with is part of the reply instead.
- `is_admin` and the administrator check of `datkenhlog` read a Discord permission object; they are an `isAdmin` input.
- Reading and writing `data.json` is not modelled, because it is file I/O. `save` changes nothing in memory. Only the default state of `load` is modelled, so the invariant covers stores built from it, not a file edited by hand.
- The time stamp `datetime.now().strftime(...)` comes from the clock; it is an opaque string parameter.
- Member ids are naturals and channel ids are integers. Reasons and user names are arbitrary strings.
- Concurrency is not modelled, and the commands run one after another. No command awaits between reading and writing the state. One read comes after an await: `goiseo` reports `len(u)` (bot.py:162) after `await update_scar_roles` (bot.py:154). A `ghiseo` for the same member that runs during that await appends to the same list. The reply can then show a larger remainder than `Store.CaseStore.PopLast`'s `Removed(|before| - 1, ...)`.
- `u` in the command bodies is the same Python list object as `data["users"][uid]`. The model reassigns the member's entry with the changed list, which has the same effect on the state. It does not model the aliasing itself.
- Tier.RoleFor: its own contract states only that a role comes from the configuration and needs a positive count. The exact role name is stated for the default configuration by `Tier.DefaultRoles` and for high counts by `Tier.TierSaturates`.
- Three behaviours of bot.py are worth noting:
  - The tier counts every stored case of the member.
  - `xemseo` lists cases oldest first.
  - `goiseo` and `xemseo` create an empty list through `get_user` for a member who has none yet.

# Poll voting, hashtag trend summary and default post language

A Dafny model of three small pieces of logic in the Mastodon iOS client.

- **Poll voting** (`poll.dfy`, module `PollVoting`). A status poll has options, each with a server index and an `isSelected` flag, and the poll has the flags `multiple` and `isVoting`. Two handlers change it.
  - Tapping an option row. If the poll is already voting, nothing changes. In a single-choice poll, the tap deselects every other option, marks the poll voting, and sends the tapped option's index as the one choice. In both kinds of poll, the tapped option is then toggled.
  - Pressing the vote button. On a multiple-choice poll, this marks the poll voting and sends the indices of the selected options, in option order. On a single-choice poll it does nothing.

  When the vote request fails, `isVoting` goes back to false and the selections stay as they were. The class `Poll` keeps its options in an array and updates them in place. Its methods `SelectOption` and `PressVote` are proved against the value-level functions `Tap`, `VoteButton` and `Settle`. Two behaviours of the code are stated as lemmas so that nobody mistakes them for gaps in the model:
  - re-tapping the selected option of a single-choice poll deselects it, but still sends a vote for it;
  - the vote button has no guard against a vote already in flight.
- **Hashtag trend summary** (`trends.dfy`, module `HashtagTrend`). The title is `"# "` followed by the tag name. The people-talking count is the sum of the `accounts` values that parse, taken from the first two history entries. The chart series is the history sorted by day, oldest first, with each entry mapped to its parsed `accounts`, or 0 when it does not parse. Swift's `Int(String)` is modelled exactly: an optional sign, at least one ASCII digit, and a value within the 64-bit range. The class `RecommendTagCell` holds the cell's label texts and chart data, and `Config` sets them.
- **Default post language** (`preference.dfy`, module `LanguagePreference`). The user defaults are a class over a map from keys to objects. The getter returns the string stored under `"defaultPostLanguage"`. If there is none, it returns the locale's language code, and if there is no code either, it returns `"en"`. The setter stores a string under that key and under no other key.

The network outcome of a vote is a parameter (`voteSucceeds`). So is the current locale's language code.

## Model

| member | source | states |
|---|---|---|
| `PollVoting.Tap` | Mastodon/Protocol/Provider/DataSourceProvider+StatusTableViewCellDelegate.swift:319-346 | A tap changes nothing and sends nothing if no option is at the tapped position or the poll is already voting. Otherwise the tapped option's selection is negated. In a single-choice poll, every other option becomes unselected, the poll becomes voting, and the request is exactly `[index of tapped option]`. In a multiple-choice poll there is no request, `isVoting` is unchanged, and the other options are unchanged. A request is sent if and only if the poll was not voting, the option exists and the poll is single-choice. Option count, indices and `multiple` are preserved. |
| `PollVoting.DeselectOthers` | Mastodon/Protocol/Provider/DataSourceProvider+StatusTableViewCellDelegate.swift:328-330 | The deselection loop keeps the number of options. |
| `PollVoting.Choices` | Mastodon/Protocol/Provider/DataSourceProvider+StatusTableViewCellDelegate.swift:392-394 | The filter-then-map of selected options yields at most one choice per option. |
| `PollVoting.SelectedPositions` | Mastodon/Protocol/Provider/DataSourceProvider+StatusTableViewCellDelegate.swift:393 | Reference definition of "the selected options, in order": strictly ascending positions, each of a selected option, and every selected position included. |
| `PollVoting.ChoicesInOptionOrder` | Mastodon/Protocol/Provider/DataSourceProvider+StatusTableViewCellDelegate.swift:392-394 | The k-th choice is the index of the k-th selected option in option order, and there are exactly as many choices as selected options. |
| `PollVoting.ChoicesAreSelectedIndices` | Mastodon/Protocol/Provider/DataSourceProvider+StatusTableViewCellDelegate.swift:392-394 | A value is a choice if and only if it is the index of some selected option. |
| `PollVoting.VoteButton` | Mastodon/Protocol/Provider/DataSourceProvider+StatusTableViewCellDelegate.swift:374-394 | With no option item, or on a single-choice poll, nothing changes and no request is sent. On a multiple-choice poll the poll becomes voting, the selections are untouched, and the request is the choices. |
| `PollVoting.Settle` | Mastodon/Protocol/Provider/DataSourceProvider+StatusTableViewCellDelegate.swift:354-362 | After a failed request `isVoting` is false. The options and `multiple` never change. Without a request, or after a successful one, the poll is left as the handler left it. |
| `PollVoting.FailedTapVoteRollsBack` | Mastodon/Protocol/Provider/DataSourceProvider+StatusTableViewCellDelegate.swift:333-362 | A single-choice tap whose vote fails leaves the poll not voting, keeps the tap's selections, and leaves the tapped option toggled. |
| `PollVoting.RetapSendsDeselectedChoice` | Mastodon/Protocol/Provider/DataSourceProvider+StatusTableViewCellDelegate.swift:327-338 | Tapping an already selected option in a single-choice poll deselects it, and the request still carries its index. |
| `PollVoting.VoteButtonWhileVoting` | Mastodon/Protocol/Provider/DataSourceProvider+StatusTableViewCellDelegate.swift:383-394 | The vote button sends a request even while the poll is already voting. |
| `PollVoting.Poll.SelectOption` | Mastodon/Protocol/Provider/DataSourceProvider+StatusTableViewCellDelegate.swift:298-366 | The in-place tap handler. It returns exactly `Tap`'s request. The poll's new state is `Tap`'s state, with `isVoting` rolled back when a request was sent and failed. |
| `PollVoting.Poll.PressVote` | Mastodon/Protocol/Provider/DataSourceProvider+StatusTableViewCellDelegate.swift:368-419 | The in-place vote-button handler. It returns exactly `VoteButton`'s request. The new state is `VoteButton`'s state, rolled back on failure. |
| `HashtagTrend.HashtagTitle` | Mastodon/Scene/Search/Search/CollectionViewCell/SearchRecommendTagsCollectionViewCell.swift:110 | The title is two characters longer than the name, starts with `"# "`, and continues with the name. |
| `HashtagTrend.ParseInt` | Mastodon/Scene/Search/Search/CollectionViewCell/SearchRecommendTagsCollectionViewCell.swift:117 | A parsed value lies within Swift's 64-bit `Int` range. Only a non-empty string of an optional sign followed by at least one digit, with digits only after the first character, parses. `ParseDecimalRoundTrip`, `ParseIntMin` and `ParseLeadingZero` give the value and the nil-on-overflow cases. |
| `HashtagTrend.DecimalDigits` | Mastodon/Scene/Search/Search/CollectionViewCell/SearchRecommendTagsCollectionViewCell.swift:118 | The digits of a count's decimal rendering have the count as their value. |
| `HashtagTrend.Decimal` | Mastodon/Scene/Search/Search/CollectionViewCell/SearchRecommendTagsCollectionViewCell.swift:118 | `String(n)` for a count is a non-empty string of digits with no leading zero. |
| `HashtagTrend.ParseDecimalRoundTrip` | Mastodon/Scene/Search/Search/CollectionViewCell/SearchRecommendTagsCollectionViewCell.swift:117-118 | For every count n, the plain rendering and the rendering with `+` parse to n exactly when n is at most `Int.max`, and to nil otherwise. With `-` it parses to -n exactly when -n is at least `Int.min`, and to nil otherwise. |
| `HashtagTrend.ParseIntMin` | Mastodon/Scene/Search/Search/CollectionViewCell/SearchRecommendTagsCollectionViewCell.swift:117 | `"-9223372036854775808"`, the rendering of `Int.min`, parses to `Int.min`. |
| `HashtagTrend.LeadingZeroValue` | Mastodon/Scene/Search/Search/CollectionViewCell/SearchRecommendTagsCollectionViewCell.swift:117 | Putting a `0` in front of a digit string keeps it a digit string with the same value. |
| `HashtagTrend.ParseLeadingZero` | Mastodon/Scene/Search/Search/CollectionViewCell/SearchRecommendTagsCollectionViewCell.swift:117 | Leading zeros are accepted: `"0"` followed by a non-empty digit string parses to the same result as the digit string alone, including nil on overflow. |
| `HashtagTrend.AccountsOrZero` | Mastodon/Scene/Search/Search/CollectionViewCell/SearchRecommendTagsCollectionViewCell.swift:123-127 | An entry's value is its parsed `accounts` when that parses, and 0 when it does not. |
| `HashtagTrend.ParsedAccounts` | Mastodon/Scene/Search/Search/CollectionViewCell/SearchRecommendTagsCollectionViewCell.swift:117 | `compactMap` yields at most one value per entry. The parsed value of every parseable entry appears, and every value that appears is some entry's parsed value. |
| `HashtagTrend.Sum` | Mastodon/Scene/Search/Search/CollectionViewCell/SearchRecommendTagsCollectionViewCell.swift:117 | `reduce(0, +)` of an empty list is 0, and of a list of non-negative values is non-negative. |
| `HashtagTrend.Points` | Mastodon/Scene/Search/Search/CollectionViewCell/SearchRecommendTagsCollectionViewCell.swift:123-127 | One point per entry: the entry's parsed `accounts`, or 0 when it does not parse. |
| `HashtagTrend.SumParsedIsSumOfPoints` | Mastodon/Scene/Search/Search/CollectionViewCell/SearchRecommendTagsCollectionViewCell.swift:117 | Dropping unparseable entries gives the same sum as counting them as 0, so they contribute nothing. |
| `HashtagTrend.SumOfPoints` | Mastodon/Scene/Search/Search/CollectionViewCell/SearchRecommendTagsCollectionViewCell.swift:116-117 | For at most two entries, the sum of the points is the first entry's value plus the second's, a missing entry counting 0. |
| `HashtagTrend.RecentHistory` | Mastodon/Scene/Search/Search/CollectionViewCell/SearchRecommendTagsCollectionViewCell.swift:116 | `prefix(2)` is a prefix of the history. It has two entries when the history has at least two, and is the whole history otherwise. |
| `HashtagTrend.PeopleCount` | Mastodon/Scene/Search/Search/CollectionViewCell/SearchRecommendTagsCollectionViewCell.swift:116-117 | The count is the parsed value of entry 0 plus that of entry 1, where an absent or unparseable entry counts 0. It is 0 for an empty history, and never negative when no entry parses to a negative value. |
| `HashtagTrend.InsertByDay` | Mastodon/Scene/Search/Search/CollectionViewCell/SearchRecommendTagsCollectionViewCell.swift:122 | One insertion step of the sort grows the history by exactly one entry. |
| `HashtagTrend.InsertSorted` | Mastodon/Scene/Search/Search/CollectionViewCell/SearchRecommendTagsCollectionViewCell.swift:122 | Inserting an entry into a day-ordered history keeps it ordered by day. |
| `HashtagTrend.InsertPermutes` | Mastodon/Scene/Search/Search/CollectionViewCell/SearchRecommendTagsCollectionViewCell.swift:122 | Inserting adds exactly the new entry: the result's multiset is the old one plus the entry. |
| `HashtagTrend.SortByDay` | Mastodon/Scene/Search/Search/CollectionViewCell/SearchRecommendTagsCollectionViewCell.swift:122 | The sorted history is ordered by ascending day, is a permutation of the history, and has the same length. |
| `HashtagTrend.PointsOfInsert` | Mastodon/Scene/Search/Search/CollectionViewCell/SearchRecommendTagsCollectionViewCell.swift:122-127 | The points of an insertion are the old points plus the new entry's point, as multisets. |
| `HashtagTrend.PointsOfSort` | Mastodon/Scene/Search/Search/CollectionViewCell/SearchRecommendTagsCollectionViewCell.swift:122-127 | Sorting only reorders the points. |
| `HashtagTrend.ChartSeries` | Mastodon/Scene/Search/Search/CollectionViewCell/SearchRecommendTagsCollectionViewCell.swift:121-128 | The series has one point per history entry and is a permutation of the mapped entries. Point k belongs to the k-th entry in day order. A point whose entry does not parse is 0. |
| `HashtagTrend.LatestLast` | Mastodon/Scene/Search/Search/CollectionViewCell/SearchRecommendTagsCollectionViewCell.swift:122 | The last entry in chart order has a day no earlier than any entry's. |
| `HashtagTrend.RecommendTagCell.Config` | Mastodon/Scene/Search/Search/CollectionViewCell/SearchRecommendTagsCollectionViewCell.swift:109-129 | The title is always set. Without history the people label is blank and the chart data keeps its old value. With history the label carries `PeopleCount` and the chart carries `ChartSeries`. |
| `LanguagePreference.UserDefaults.StoredLanguage` | MastodonSDK/Sources/MastodonCommon/Preference/Preference+Language.swift:9 | `as? String` yields a value if and only if a string object is stored under the key, and the value is that string. |
| `LanguagePreference.UserDefaults.DefaultPostLanguage` | MastodonSDK/Sources/MastodonCommon/Preference/Preference+Language.swift:8-10 | A stored string is returned. Failing that, the locale's language code is returned. Failing both, `"en"` is returned. |
| `LanguagePreference.UserDefaults.SetDefaultPostLanguage` | MastodonSDK/Sources/MastodonCommon/Preference/Preference+Language.swift:11 | The setter stores the string under the key. Every other key keeps its presence and value. Reading back gives the value set, whatever the locale. |

## Left out

- Core Data fetches and `performChanges` transactions are modelled only by their effect on the poll. A failed lookup of the tapped option is a tapped position with no option. A missing first option item for the vote button is an empty option list. The rollback's re-fetch is assumed to find the same poll.
- The `assertionFailure` branch for a poll item that is not an option is not modelled. It is a debug trap for an item kind the poll table does not produce.
- Options are values in an array, and a tapped option is identified by its position. Identity and aliasing of managed option objects are not modelled.
- The Poll entity is not part of this model. The model takes `poll.options` to be in option order.
- `apiService.vote`, and whatever it writes into the poll on success, is not part of this model. A successful vote leaves `isVoting` as the handler set it.
- The `updatedAt: Date()` writes, the `Task`/`async` wrapping, UIKit layout and styling, and the localized "people talking" sentence are not modelled. The label carries the count only.
- `PeopleCount`: the sum is over unbounded integers. Swift's `+` in `reduce(0, +)` traps when two parsed counts sum outside `Int`'s range, and the model does not represent that trap.
- `SortByDay`: this is a stable insertion sort. Swift's `sorted(by:)` does not promise an order for entries of equal day, so the model fixes one. Its proved properties (day order, permutation, length) hold for any such order.
- `History.day` is a `Date` in the source and an integer timestamp here. Chart points are integers instead of `CGFloat`.
- `LineChartView` is not part of this model. The chart data's value before the first `Config` is taken to be empty.
- The subscript setter that `self[#function] = newValue` calls is not part of this model. It is taken to store the string under the key.
- `UserTableViewCell+ViewModel.swift` is not modelled. It only holds publishers and compares an account id.

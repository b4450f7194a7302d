# MaaS machine status report — Dafny model

`maas-report.py` fetches every machine known to a Canonical MaaS server and prints
a report in three sections: "servers available", "servers with potential issues",
and "Machines in any kind of failed state". This project models the part of
`generate_report` that decides what the report says:

- the classification loop. A machine whose status, lower-cased, contains "failed"
  or "broken" is failed, and no other test is applied to it. Otherwise, if its
  status is exactly "Ready", it is available when some tag lower-cases to
  "available". It is a potential issue when some tag starts with "DCOPS-", in any
  case. It can be both.
- the ascending, stable sort of each section by hostname;
- the text of each line, with fields padded on the right to 25, 12, 15 or 20
  columns. The owner falls back to "Unassigned". An absent or empty status
  message is dropped. An empty section gets its fixed sentence instead.

Files:

- `text.dfy` (module `Text`): ASCII lower-casing, substring and prefix tests,
  Python's `<` on strings, and `{s:<N}` padding.
- `classifier.dfy` (module `Classifier`): the `Machine` record, the
  per-machine tests, and the `Classify` loop. `Classify` is proved against
  `Members`, a functional specification of each section.
- `sorting.dfy` (module `Sorting`): a reference insertion sort by hostname. It
  is proved sorted, a permutation of its input, and stable.
- `report.dfy` (module `Report`): line rendering, the "none found" sentences,
  and `GenerateReport`.

## Model

| member | source | states |
|---|---|---|
| `Classifier.BelongsDependsOnlyOnStatusAndTags` | maas-report.py:54-68 | two machines with the same status and tags qualify for the same sections |
| `Classifier.SameStatusAndTagsSameLists` | maas-report.py:51-68 | input machines with the same status and tags are in the same lists, whatever their hostname, system ID, owner and message |
| `Classifier.Classify` | maas-report.py:43-68 | the loop's three lists are exactly the machines of each section, in input order (`Members`) |
| `Classifier.MembersIn` | maas-report.py:51-68 | a machine is in a section's list iff it is one of the input machines and passes that section's test |
| `Classifier.MembersCount` | maas-report.py:51-68 | each input occurrence of a qualifying machine gives exactly one entry in the list; a non-qualifying one gives none |
| `Classifier.MembersSubsequence` | maas-report.py:51-68 | each list is a subsequence of the input: the input order is kept |
| `Classifier.FailedIsExclusive` | maas-report.py:54-56 | a failed or broken machine is in the failed list and in neither other list, whatever its tags |
| `Classifier.FailedInAnyCase` | maas-report.py:54 | "failed" or "broken" in any case, at any position of the status, makes the machine failed |
| `Classifier.ReadyGate` | maas-report.py:59 | only the exact status "Ready" lets a machine into the available or potential-issue list |
| `Classifier.WrongCaseReadyListedNowhere` | maas-report.py:54-68 | statuses "ready" and "READY" put a machine in no list |
| `Classifier.NeitherFailedNorReady` | maas-report.py:51-68 | a machine neither failed/broken nor exactly "Ready" is in no list |
| `Classifier.ReadyIsNotFailed` | maas-report.py:54 | the status "Ready" never passes the failure test |
| `Classifier.AvailableIff` | maas-report.py:59-64 | in the available list iff an input machine with status "Ready" and a tag that lower-cases to "available" |
| `Classifier.PotentialIssueIff` | maas-report.py:48-68 | in the potential-issue list iff an input machine with status "Ready" and a tag whose first six characters lower-case to "dcops-" |
| `Classifier.NoTagsNoMatch` | maas-report.py:60-68 | a machine without tags is in neither the available nor the potential-issue list |
| `Classifier.AvailableAndPotentialIssue` | maas-report.py:63-68 | a "Ready" machine with an "available" tag and a "DCOPS-" tag is in both lists |
| `Text.ContainsIff` | maas-report.py:54 | the substring test used for `in` holds iff the pattern occurs at some index |
| `Text.ShorterNeverContains` | maas-report.py:54 | a status shorter than the pattern never contains it |
| `Text.AtMostTotal` | maas-report.py:80 | the hostname order compares every two hostnames |
| `Text.AtMostTransitive` | maas-report.py:80 | the hostname order is transitive |
| `Text.AtMostAntisymmetric` | maas-report.py:80 | hostnames ordered both ways are equal |
| `Text.LessIrreflexive` | maas-report.py:80 | no hostname is strictly before itself |
| `Text.LessTransitive` | maas-report.py:80 | strict string order is transitive |
| `Text.LessTrichotomy` | maas-report.py:80 | two strings are equal, or one is strictly before the other |
| `Text.PadRight` | maas-report.py:82 | `{s:<N}` is as long as the longer of s and N columns, begins with s (never truncated), and is spaces after s |
| `Sorting.InsertPermutes` | maas-report.py:80 | inserting a machine adds exactly that machine, losing and duplicating nothing |
| `Sorting.InsertSorted` | maas-report.py:80 | inserting one machine into a sorted list adds exactly that machine and keeps it sorted |
| `Sorting.SortIsSorted` | maas-report.py:80 | each sorted section ascends by hostname |
| `Sorting.SortIsPermutation` | maas-report.py:80 | each sorted section is a permutation of its list |
| `Sorting.InsertWithHostname` | maas-report.py:80 | an inserted machine goes ahead of every machine with the same hostname |
| `Sorting.SortIsStable` | maas-report.py:80 | machines with equal hostnames keep their input order |
| `Report.GenerateReport` | maas-report.py:37-110 | each section body renders that section's list; empty input gives the three "none found" sentences |
| `Report.SectionBody` | maas-report.py:79-109 | an empty section prints only its sentence; otherwise one line per machine, in a sorted, stable permutation of the list |
| `Report.SectionShowsItsMachines` | maas-report.py:79-109 | a non-empty section prints the line of each qualifying input machine and no other line |
| `Report.LineStartsWithHost` | maas-report.py:82 | every line begins with the host label followed by the whole hostname |
| `Report.OwnerLineLayout` | maas-report.py:81-82 | when fields fit their widths, the available/potential-issue columns sit at fixed offsets; the owner column is the username or "Unassigned" |
| `Report.FailedLineLayout` | maas-report.py:106-107 | when fields fit their widths, the failed columns sit at fixed offsets; the line ends with "Message: …" only for a non-empty message |
| `Report.OwnerColumn` | maas-report.py:81-82 | at any field width, the owner column after " Owner: " is the username, or "Unassigned" without owner, padded to 15, then " Tags: " and the tags |
| `Report.MessageColumn` | maas-report.py:105-107 | at any field width, a failed line ends after the padded status and one space with "Message: " and the message when it is present and non-empty, and with nothing otherwise |
| `Report.ExampleLists` | maas-report.py:51-68 | the worked example's classification lists: available = srv-b, srv-a; potential issue = srv-a; failed = srv-c |
| `Report.WorkedExample` | maas-report.py:51-104 | srv-b (available), srv-a (DCOPS-1, available) and a Broken srv-c give available = srv-a, srv-b; potential issue = srv-a; failed = srv-c |

## Left out

- The configuration read from environment variables (maas-report.py:16-17), `get_maas_client` (maas-report.py:20-34) and the fetch in `main` (maas-report.py:113-128) are not modelled. They read the environment, call the external `maas.client` library over the network, and exit the process. The model starts from the list of machine records.
- The `print` calls, the `=` banners and the section titles (maas-report.py:71-78, 85-90, 97-102, 110) are not modelled. They are standard-output I/O. The model gives each section's body lines as strings.
- The string form of the tag collection (`Tags: {m.tags}`, formatted with `str`) depends on the client library's tag object. It is the parameter `tagRepr` of `Report.MachineLine`.
- `str.lower()` is modelled as ASCII case folding only. Full Unicode lower-casing (for example, characters that change the length when lower-cased) is not modelled.
- `re.IGNORECASE` matching of `^DCOPS-.*` is modelled as an ASCII case-insensitive prefix test on "DCOPS-". Python also matches some non-ASCII characters that fold to ASCII letters, such as the long s "ſ" for "S", and the model does not.
- Python's sort algorithm (Timsort) is not modelled. `Sorting.SortByHostname` is an insertion sort with the same result: a stable sort by the same key.
- Strings compare by code point, as Python's `str` does. Dafny's `char` excludes surrogate code points, which Python strings may contain.
- The owner is modelled as the username when an owner exists; the owner object itself is not modelled.
- The unused `owner` computed for failed machines (maas-report.py:105) has no effect on the output, so it is not modelled.

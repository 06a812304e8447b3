# Massachusetts legislator pay: a Dafny model

This project models the core of a tool that predicts a Massachusetts
legislator's statutory annual pay for a session. The pay is the base
salary, plus role stipends under section 9B of chapter 3 of the General
Laws, plus a travel allowance under section 9C. Every dollar figure carries
the citations that justify it.

The model follows the Python source module by module:

- **Provenance.** The amount algebra: an integer amount with a set of
  citations, and the zero, from, add, sum and scale operations.
- **SourcesRegistry, RoleCatalog, CommitteeCatalog, Core.** The static
  catalogs: citations, the eighteen priced roles and their eight tiers, and
  the 56 committees.
- **Rules9B, Rules9C, TotalComp.** Pricing one role, collecting the priced
  roles a member holds, the travel allowance, and the three-part total.
- **Issues, Validators.** The audit issue records and the catalog validator.
- **Normalize, NormalizeLeadership.** Mapping scraped committee role labels
  and leadership titles to role codes.
- **SessionLoader.** Building a session from the decoded members and roles
  payloads.
- **EnrichDistance.** The district-name and centroid-key parsers, and the
  Senate district-name normaliser.
- **IngestMembers, IngestCommittees.** The string-level steps of the
  scrapers: party codes, chamber headers, member ids, committee ids and role
  labels.
- **MemberProfileTool, SessionReportTool, ToolModels.** The member profile
  breakdown, the session summary statistics, and the export records with
  their `to_dict` methods.
- **Wrappers, Strings, Sorting.** Shared helpers. Python exceptions become
  `Err` values (`KeyError`, `ValueError`, `ZeroDivisionError`). The string
  primitives are the ASCII readings of Python's. The stable sort is an
  insertion sort.

Every operation is a pure function. Most have an independent partner: a
table the code is proved to agree with, an inverse it round-trips with, or
an invariant it keeps.

Some results follow from the catalogs as they are written:

- The committee codes in the role catalog (for example `WAYS_MEANS_HOUSE`)
  never have the form of the committee catalog's codes (for example
  `HOUSE_WAYS_AND_MEANS`).
- So `committee_role_to_internal` never returns a catalog role for a
  scraped committee role. It always falls back to a generic code
  (`Normalize.CommitteeRoleAlwaysGeneric`). The model also defines the
  evidently intended mapping, which looks a committee up under the role
  catalog's spelling of its code (`Normalize.IntendedCommitteeChairPriced`;
  see Findings).
- The leadership normaliser's if-chain defines the same mapping as a table
  of 19 (title, chamber, code) entries, and its codes are pairwise distinct.

## Model

| member | source | states |
|---|---|---|
| Provenance.RoundHalfEven | audit/provenance.py:71 | `round` on an exact value: the result is within one half of it, and an exact half goes to the even neighbour |
| Provenance.ZeroIsEmpty | audit/provenance.py:40-42 | `ap_zero` has value 0 and cites nothing |
| Provenance.FromCitesExactly | audit/provenance.py:45-47 | `ap_from` keeps the value and cites exactly the listed sources; a repeated source counts once, so there are never more citations than arguments |
| Provenance.AddValueAndSources | audit/provenance.py:50-56 | `ap_add` adds the values and unites the citation sets |
| Provenance.AddCommutative | audit/provenance.py:50-56 | `ap_add(a, b) == ap_add(b, a)` |
| Provenance.AddAssociative | audit/provenance.py:50-56 | `ap_add` is associative |
| Provenance.ZeroIdentity | audit/provenance.py:40-56 | `ap_zero` is a left and a right identity of `ap_add` |
| Provenance.SumIsTotalAndUnion | audit/provenance.py:59-64 | the left fold of `ap_sum` has the independently defined total of the values and cites the union of every input's citations |
| Provenance.SumEmpty | audit/provenance.py:59-64 | `ap_sum` of no amounts is `ap_zero` |
| Provenance.SumThree | audit/provenance.py:59-64 | three amounts sum to `ap_add(ap_add(a, b), c)`: the three values added, the three citation sets united |
| Provenance.SumAppend | audit/provenance.py:59-64 | the sum of a concatenation is the `ap_add` of the two partial sums |
| Provenance.SumPermutation | audit/provenance.py:59-64 | two inputs holding the same amounts in any order have the same sum |
| Provenance.ScaleSourcesAndRounding | audit/provenance.py:67-74 | `ap_scale` cites the input's sources plus the extra ones and its value is within one half of value × factor |
| Provenance.ScaleByOne | audit/provenance.py:71-74 | scaling by exactly 1 with no extra source returns the input unchanged |
| Provenance.ScaleZero | audit/provenance.py:67-74 | scaling `ap_zero` without extra sources gives `ap_zero` for every factor |
| Core.ChamberOfValue | models/core.py:10-15 | `Chamber(value)` yields a member only when that member's value is exactly the string |
| Core.ChamberValues | models/core.py:10-15 | `Chamber` has exactly the values house, senate and joint, and each value parses back to its member |
| Core.RoleCodeOfValue | models/core.py:100-120 | `RoleCode(value)` yields a code only when that code's value is exactly the string |
| Core.RoleCodeValueRoundTrip | models/core.py:100-120 | every role code's value parses back to the same code |
| Core.RoleCodeValueInjective | models/core.py:100-120 | two role codes share a value exactly when they are the same code |
| Core.RoleCodeOfValueComplete | models/core.py:100-120 | a string parses to no role code exactly when it is no code's value |
| Core.AllRoleCodesComplete | models/core.py:100-120 | the declaration-order list has all 18 role codes, each once |
| Core.TierOfValue | models/core.py:123-133 | `StipendTierCode(value)` yields a tier only when that tier's value is exactly the string |
| Core.TierBaseAmount | models/core.py:138-147 | every tier's base amount lies between 5,200 and 80,000 |
| Core.GetBaseAmount | models/core.py:135-148 | `get_base_amount` succeeds exactly for a tier value, with that tier's amount, and otherwise fails with a `KeyError` on the id |
| Core.TierValueRoundTrip | models/core.py:123-133 | every tier's value parses back to the same tier |
| Core.TierValueInjective | models/core.py:123-133 | no two tiers share a value |
| Core.TierOfValueComplete | models/core.py:123-133 | a string parses to no tier exactly when it is no tier's value |
| Core.TierAmounts | models/core.py:138-147 | T80K→80,000, T65K→65,000, T60K→60,000, T50K→50,000, T35K→35,000, T30K→30,000, T15K→15,000, T5200→5,200 |
| Core.TiersTotalPositiveDecreasing | models/core.py:123-148 | all eight tiers have an entry, every amount is positive, and amounts strictly decrease in declaration order |
| SourcesRegistry.IndexById | audit/sources_registry.py:36-43 | the dictionary comprehension files every listed source under its id, and every key maps to a listed source carrying that id |
| SourcesRegistry.GetSource | audit/sources_registry.py:46-48 | `get_source` succeeds exactly for a registered id, returning the source with that id, and otherwise fails with a `KeyError` on the id |
| SourcesRegistry.RegisteredIdsDistinct | audit/sources_registry.py:8-34 | the four registered ids are pairwise distinct |
| SourcesRegistry.GetSourceRoundTrip | audit/sources_registry.py:36-48 | looking up a registered source's id gives that same source back |
| SourcesRegistry.RegistryContents | audit/sources_registry.py:36-43 | the registry's keys are exactly the four ids, each mapped to the source carrying it |
| SourcesRegistry.SourceKinds | audit/sources_registry.py:8-34 | the sources for sections 9B and 9C and Article CXVIII are statutes, the BEA series is an economic series, and Article CXVIII has no URL |
| SourcesRegistry.GetSourceUnknown | audit/sources_registry.py:46-48 | an unregistered id fails with `KeyError` rather than a default |
| RoleCatalog.IndexByCode | config/role_catalog.py:213-215 | every key of the code dictionary maps to a listed definition carrying that code, and every listed definition's code is a key |
| RoleCatalog.LastWithCode | config/role_catalog.py:213-215 | the reference reading of the comprehension: the last listed definition with the code, absent exactly when no definition has it |
| RoleCatalog.IndexByCodeIsLastMatch | config/role_catalog.py:213-215 | the dictionary holds a code exactly when some definition carries it, and then keeps the last such definition |
| RoleCatalog.GetRoleDefinition | config/role_catalog.py:218-220 | a found definition carries the requested code; a failure is a `KeyError` on the code |
| RoleCatalog.GetRoleDefinitionFound | config/role_catalog.py:192-220 | the lookup succeeds exactly for a role code's value and then returns a catalogued definition |
| RoleCatalog.GetRoleDefinitionUsesDictionary | config/role_catalog.py:213-220 | the lookup answers exactly with the `ROLE_DEFINITIONS` entry for the code |
| RoleCatalog.GetRoleDefinitionEntry | config/role_catalog.py:15-220 | every code's lookup returns its named definition, and that definition's code is the requested one |
| RoleCatalog.CatalogIndex | config/role_catalog.py:192-211 | every role code's definition sits in the catalog list |
| RoleCatalog.CatalogCodesDistinct | config/role_catalog.py:192-211 | the catalog list has 18 entries with pairwise distinct codes |
| RoleCatalog.UncataloguedCodeFails | config/role_catalog.py:218-220 | a string that is no role code's value fails with `KeyError`, never a default |
| RoleCatalog.CatalogShape | config/role_catalog.py:15-186 | every entry has a tier and the House or Senate chamber; committee roles are chairs with a committee code, leadership roles have neither |
| RoleCatalog.CatalogTiers | config/role_catalog.py:15-186 | Speaker and President T80K, Ways and Means chairs T65K, floor leaders T60K, pro tems T50K, assistant leaders T35K, Rules/Education/Judiciary chairs T30K |
| RoleCatalog.CatalogTiersListed | config/role_catalog.py:15-211 | the same tier assignment, position by position in the catalog list |
| RoleCatalog.CatalogTitlesDistinct | config/role_catalog.py:15-211 | no two catalog entries share a title |
| Rules9B.SessionAdjustmentFactor | models/rules_9b.py:30-32 | the adjustment factor is 1.0 for every session |
| Rules9B.UnitFactorKeepsAmount | models/rules_9b.py:44-46 | rounding a whole amount scaled by 1.0 gives the amount back |
| Rules9B.StipendForRoleAssignment | models/rules_9b.py:35-52 | an unknown code fails with the catalog's `KeyError`; a role without a tier gets no stipend; otherwise the stipend is the tier's base amount and carries the assignment's role code and session id |
| Rules9B.CatalogRolePriced | models/rules_9b.py:35-52 | every catalogued code is priced at the base amount of its statutory tier |
| Rules9B.CatalogDefinitionPriced | models/rules_9b.py:40-52 | a role the catalog knows is always priced to some stipend |
| Rules9B.InSession | models/rules_9b.py:61-63 | the reference filter: exactly the assignments of the session, never more than the input |
| Rules9B.Collect | models/rules_9b.py:55-68 | on success, no more stipends than assignments, each priced from an assignment of the session |
| Rules9B.CollectAppend | models/rules_9b.py:61-67 | collecting a concatenation collects the two parts and appends them, the first failure winning |
| Rules9B.CollectSingle | models/rules_9b.py:61-67 | one assignment: skipped if of another session, else its failure, nothing, or its stipend |
| Rules9B.CollectIgnoresOtherSessions | models/rules_9b.py:61-63 | collecting over all assignments equals collecting over the session's own |
| Rules9B.CollectFailure | models/rules_9b.py:40-64 | the collection fails exactly when pricing some in-session assignment fails, and then with the first such failure |
| Rules9B.RawRoleStipendsShape | models/rules_9b.py:55-68 | no more stipends than roles; each belongs to the session and to an assignment of that role code |
| Rules9B.RawRoleStipendsFailure | models/rules_9b.py:40-68 | an unknown role code in the session propagates as a failure, and nothing else fails |
| Rules9B.CollectLoop | models/rules_9b.py:59-68 | the `for` loop with `continue`s computes the recursive collection |
| Rules9B.CollectStep | models/rules_9b.py:61-67 | one loop iteration: skip another session's assignment, stop on a failure, or append the stipend if any |
| Rules9B.CollectErrPrefix | models/rules_9b.py:64 | once a prefix fails, the whole loop fails the same way |
| Rules9B.RawRoleStipendsForMember | models/rules_9b.py:55-68 | `raw_role_stipends_for_member` returns the collection of the member's roles priced for the session |
| Rules9B.SpeakerOnlyExample | unit/test_rules_9b.py:33-52 | a House member holding only SPEAKER gets exactly one raw stipend, SPEAKER at 80,000 |
| Rules9B.PaidAmounts | models/total_comp.py:45 | the paid roles' amounts, one per paid role and in order |
| Rules9C.Travel9CForMember | models/rules_9c.py:24-51 | fails with the member's `ValueError` exactly when the distance is missing; otherwise 15,000 up to and including 50.0 miles, 20,000 beyond, with member id, session id and distance copied |
| Rules9C.TravelMonotone | models/rules_9c.py:33-44 | the amount is always 15,000 or 20,000 and never decreases as the distance grows |
| Rules9C.AtThreshold | models/rules_9c.py:33-35 | a member exactly 50.0 miles away gets 15,000 |
| TotalComp.BaseSalaryForSession | config/base_salary.py:21-28 | the base is 75,000 citing only Article CXVIII, for the requested session, whatever it is |
| TotalComp.SelectionSources | models/total_comp.py:46-48 | the union the provenance loop accumulates: a citation is in it exactly when some selection record cites it |
| TotalComp.TotalCompForMember | models/total_comp.py:41-65 | the total as evidently intended (as written every call raises, see Findings): fails exactly when selection fails or the distance is missing; otherwise three components labelled base, 9B, 9C in that order, the ids copied, and a total whose value is the sum and whose citations are the union of the three |
| TotalComp.ComponentsInDetail | models/total_comp.py:43-58 | the components of the corrected total, with the base salary's amount in place of its record and the stipends and travel read as amounts: base is 75,000 citing Article CXVIII; 9B's value is the paid amounts' total and its citations are theirs plus every selection record's, selected or not; 9C is the travel amount, uncited |
| TotalComp.SpeakerTotalExample | unit/test_total_comp.py:14-35 | a House Speaker 10 miles away totals 75,000 + 80,000 + 15,000 = 170,000 under any selection meeting the unit tests' examples |
| TotalComp.SumOperands | audit/provenance.py:50-64 | the left fold of `ap_add` from `ap_zero` succeeds exactly when every operand is an amount, and then totals them; otherwise it fails on the first operand that is not, with the AttributeError for reading `value` from that operand's type |
| TotalComp.SumOperandsOfAmounts | audit/provenance.py:59-64 | over amounts only, the fold is the sum of provenance values and citations |
| TotalComp.PaidOperandsSum | models/total_comp.py:45 | summing the paid roles' plain integer amounts raises the AttributeError on 'int' as soon as one role is paid, and gives the zero amount when none is |
| TotalComp.TotalCompForMemberAsWritten | models/total_comp.py:41-65 | the total as written never succeeds: a selection error or a missing distance is reported as in the source, a paid role raises on 'int', and otherwise the BaseSalary record passed to the sum raises on 'BaseSalary' |
| TotalComp.TotalCompAsWrittenRaises | models/total_comp.py:55-57 | every member and session the corrected total succeeds for make the total as written raise an AttributeError |
| TotalComp.SpeakerTotalAsWritten | unit/test_total_comp.py:14-35 | the unit test's Speaker, who should total 170,000, raises the AttributeError on 'int' as written |
| Issues.Error | audit/issues.py:29-37 | `AuditIssue.error` has level ERROR and passes code, message and the keyword context through unchanged |
| Issues.Warning | audit/issues.py:39-47 | `AuditIssue.warning` has level WARNING and passes code, message and the keyword context through unchanged |
| Issues.ErrorAndWarningDifferInLevelOnly | audit/issues.py:29-47 | the two builders differ in the level alone, and an error determines its code, message and context |
| Validators.TierError | validators.py:16-26 | an unknown-tier issue is an ERROR coded UNKNOWN_STIPEND_TIER whose message is a string that begins "Role " and the role code and ends with the tier, and whose context is the role code and the tier; this is the message as intended, the source passes a one-element tuple (see Findings) |
| Validators.TierErrorMessageAsWritten | validators.py:18-21 | the message argument as written is a one-element tuple whose only item is the intended text |
| Validators.TierErrorMessagePrintsAsTuple | validators.py:18-21 | for every role with an unknown tier, the message as written is not the intended string: printed, it is that string quoted inside `(` and `,)` |
| Validators.UnknownTierRoles | validators.py:15-16 | exactly the roles with a non-null tier outside the known tiers, in catalog order |
| Validators.TierErrors | validators.py:15-27 | one tier error per role with an unknown tier, in catalog order |
| Validators.TitlesInOrder | validators.py:28-30 | the titles in the order `setdefault` first meets them, each exactly once |
| Validators.CodesWithTitle | validators.py:28-30 | `title_to_codes[title]`: exactly the codes of the entries with that title |
| Validators.SharedTitles | validators.py:31-32 | exactly the titles filed under two codes or more, each once |
| Validators.DuplicateTitleWarning | validators.py:33-42 | a duplicate-title issue is a WARNING coded DUPLICATE_ROLE_TITLE whose context is the title and all its codes in catalog order |
| Validators.TitleWarnings | validators.py:31-42 | one warning per shared title, in first-use order |
| Validators.ValidateRoleCatalog | validators.py:12-43 | the tier errors come first and the title warnings after them, nothing else |
| Validators.TierErrorExact | validators.py:15-27 | a role draws a tier error exactly when its tier is non-null and unknown; a null tier never does |
| Validators.TitleWarningsExact | validators.py:28-42 | a title draws a warning exactly when two or more codes use it, and at most one warning |
| Validators.CleanCatalogHasNoIssues | validators.py:12-43 | a catalog with known tiers and unique titles yields no issue |
| Validators.ShippedCatalogIsClean | validators.py:12-43 | the shipped role catalog yields no issue when every tier of the enumeration is known |
| CommitteeCatalog.FileUnder | config/committee_catalog.py:420-422 | filing a committee under its keys adds exactly those keys, each mapped to the committee, and leaves every other entry as it was |
| CommitteeCatalog.IndexByContents | config/committee_catalog.py:418-422 | the comprehension's keys are exactly the committees' keys, each filed under a committee that lists it |
| CommitteeCatalog.IndexByUniqueKey | config/committee_catalog.py:420-422 | a key listed by one committee only is filed under that committee |
| CommitteeCatalog.Lookup | config/committee_catalog.py:425-427 | `dict.get`: a found committee lists the key; `None` exactly when no committee lists it |
| CommitteeCatalog.RowsConsistentAll | config/committee_catalog.py:22-415 | all 56 entries have a joint flag set exactly for the joint prefix, no chamber when joint, and the chamber their Senate or House prefix names |
| CommitteeCatalog.RowIdsDistinct | config/committee_catalog.py:22-415 | no two entries share an external id |
| CommitteeCatalog.RowCodesDistinct | config/committee_catalog.py:22-415 | no two entries share a code |
| CommitteeCatalog.CodePrefixOf | config/committee_catalog.py:22-415 | a committee code starts with exactly one of the four prefixes, the one its entry was written with |
| CommitteeCatalog.CatalogCodesDistinct | config/committee_catalog.py:22-415 | the catalog has 56 committees with pairwise distinct codes |
| CommitteeCatalog.CatalogIdsBijective | config/committee_catalog.py:22-427 | each committee lists one external id, the ids are distinct, and looking a committee's id up finds that committee |
| CommitteeCatalog.CatalogCodeLookup | config/committee_catalog.py:22-418 | looking a committee's code up in the intended code dictionary finds that committee |
| CommitteeCatalog.CatalogFlags | config/committee_catalog.py:22-415 | `is_joint` holds exactly for `JOINT_` codes, joint committees have no chamber, `SENATE_` codes get the Senate and `HOUSE_` codes the House |
| CommitteeCatalog.LookupHasCatalogPrefix | config/committee_catalog.py:425-427 | whatever the id lookup returns has a code starting with one of the catalog's four prefixes |
| Normalize.NormalizeRoleLabel | data/normalize.py:12-22 | no label or an empty one gives nothing; "vice" anywhere gives VICE_CHAIR; "chair" without "vice" gives CHAIR; "ranking" without either gives RANKING_MINORITY; all case-insensitively, and nothing else is produced |
| Normalize.LabelIgnoresCase | data/normalize.py:15 | labels equal up to case classify alike |
| Normalize.LabelExamples | data/normalize.py:16-19 | "Vice Chair" is a vice chair although it contains "chair"; "Chair" is a chair |
| Normalize.ChamberNameLower | data/normalize.py:46 | `Chamber.name.lower()` is the chamber's value |
| Normalize.FirstMatch | data/normalize.py:41-48 | the loop returns the first catalog role, in catalog order, with the committee's code, the role type, and no chamber or the given one; nothing exactly when no role matches |
| Normalize.GenericFallback | data/normalize.py:35-53 | the fallback gives a generic code for a chair or vice chair, and nothing exactly for the other role types |
| Normalize.RoleForCommittee | data/normalize.py:33-53 | no committee gives the generic fallback; a committee gives its first matching role's code, or the fallback when none matches |
| Normalize.CommitteeRoleToInternal | data/normalize.py:25-53 | an unclassifiable label gives nothing; otherwise the committee found by its external id is mapped as above |
| Normalize.CommitteeRoleRange | data/normalize.py:40-53 | only a generic code or the code of a catalog role matching the committee, role type and chamber can be returned |
| Normalize.UnknownCommitteeFallback | data/normalize.py:33-39 | an id no committee lists gives GENERIC_OTHER_COMMITTEE_CHAIR for a chair, GENERIC_OTHER_COMMITTEE_VICE_CHAIR for a vice chair, nothing for a ranking member |
| Normalize.RoleCommitteeCodesForm | config/role_catalog.py:39-183 | no committee code of the role catalog has one of the committee catalog's four prefixes |
| Normalize.CatalogFormFallsBack | data/normalize.py:40-53 | a committee whose code has the committee catalog's form matches no catalog role, so it gets the generic fallback |
| Normalize.CommitteeRoleAlwaysGeneric | data/normalize.py:30-53 | as the two catalogs stand, every classifiable label ends in the generic fallback, whatever the committee id |
| Normalize.HouseWaysAndMeansChairAsWritten | data/normalize.py:25-53 | as written, the label "Chair" on the House Committee on Ways and Means (H34) in the House gives the generic chair code |
| RoleCatalog.RoleCatalogSpelling | config/role_catalog.py:39-183 | the six committee codes the role catalog uses, each reached from the committee catalog's spelling of the same committee; every result is a committee code of some catalog role |
| Normalize.RoleForCommitteeIntended | data/normalize.py:33-53 | the intended lookup: no committee gives the generic fallback, and a non-generic result is the code of a catalog role matching the committee under the role catalog's spelling, the role type and the chamber |
| Normalize.CommitteeRoleToInternalIntended | data/normalize.py:25-53 | the intended mapping: an unclassifiable label gives nothing, and a non-generic result is the code of a catalog role |
| Normalize.IntendedCommitteeChairPriced | config/role_catalog.py:34-183 | with the intended lookup, every committee chair of the role catalog is mapped, in its own chamber, to its own role code |
| Normalize.HouseWaysAndMeansChair | data/normalize.py:25-53 | with the intended lookup, "Chair" on H34 in the House gives HOUSE_WM_CHAIR |
| CommitteeCatalog.HouseWaysAndMeansLookup | config/committee_catalog.py:408-413 | id H34 finds the committee coded HOUSE_WAYS_AND_MEANS |
| NormalizeLeadership.LeadershipMatchesTable | scripts/normalize_leadership.py:10-54 | the if-chain returns a code exactly when the independent table of 19 (title, chamber, code) entries lists that pair with it, and nothing exactly when it lists the pair with no code |
| NormalizeLeadership.TableCodesDistinct | scripts/normalize_leadership.py:12-53 | the 19 codes of the chain are pairwise distinct |
| NormalizeLeadership.LeadershipCodes | scripts/normalize_leadership.py:12-53 | the chain can return 19 distinct codes |
| NormalizeLeadership.NormalizeLeadershipRange | scripts/normalize_leadership.py:8-54 | the result is nothing or one of the 19 codes |
| NormalizeLeadership.LeadershipCodeInjective | scripts/normalize_leadership.py:12-53 | two recognised (title, chamber) pairs with the same code are the same pair |
| NormalizeLeadership.LeadershipIgnoresCaseAndPadding | scripts/normalize_leadership.py:10-11 | titles and chambers equal up to case and surrounding whitespace normalise alike |
| NormalizeLeadership.CapitalisedTitle | scripts/normalize_leadership.py:10 | a title normalises as its lower-case form does, for every chamber |
| NormalizeLeadership.MajorityLeaderExamples | unit/test_leadership_scraping.py:217-226 | "Majority Leader" names the Senate floor leader in the senate and the House floor leader in the house |
| NormalizeLeadership.PaddedTitleExample | unit/test_leadership_scraping.py:270-273 | "  Majority Leader  " with two spaces either side names the Senate floor leader in the senate |
| NormalizeLeadership.WrongChamberExample | unit/test_leadership_scraping.py:286-289 | "Speaker of the House" with the senate gives nothing |
| NormalizeLeadership.WhipExample | unit/test_leadership_scraping.py:257-260 | "Senate Majority Whip" in the senate is not recognised |
| NormalizeLeadership.DivisionChairExample | unit/test_leadership_scraping.py:245-254 | "First Division Chair" in the house is HOUSE_DIVISION_CHAIR_1 |
| SessionLoader.ParseChamber | data/session_loader.py:28-38 | a value parses exactly when its lower-case form is "house", "senate" or "joint", to the chamber with that value; anything else is a ValueError |
| SessionLoader.ParseChamberRoundTrip | data/session_loader.py:30-36 | every chamber's value parses back to that chamber, in any mix of case |
| SessionLoader.ParseParty | data/session_loader.py:41-53 | a missing value is OTHER; "d" gives DEMOCRAT, "r" REPUBLICAN, "other" or "o" OTHER, each as an if-and-only-if and case-insensitively; UNKNOWN is never produced; anything else is a ValueError |
| SessionLoader.ParsePartyValues | data/session_loader.py:45-80 | the values "d", "r" and "other" parse back to their parties, while "unknown" and the default "UNKNOWN" used for a row without a party are rejected |
| SessionLoader.ParseSessionYears | data/session_loader.py:56-60 | the id parses exactly when splitting at "-" gives two parts that are both integers, and then yields those integers; a wrong number of parts is "Cannot parse session years from " and the id's repr, and otherwise the first part that is not an integer gives `int()`'s "invalid literal for int() with base 10: " and that part's repr |
| SessionLoader.SessionLabelRoundTrip | data/session_loader.py:104-109 | the label "start-end" of two non-negative years parses back to those years |
| SessionLoader.ParseMember | data/session_loader.py:76-82 | a row gives a member exactly when its chamber and party parse; the member carries the row's id, name and distance, the parsed chamber and party, and no roles |
| SessionLoader.AddMembers | data/session_loader.py:75-83 | the member loop succeeds exactly when every row parses, and its keys are the earlier keys plus the rows' ids |
| SessionLoader.AddMembersShape | data/session_loader.py:83 | every member is stored under its own id and holds no role yet |
| SessionLoader.AddMembersLastWins | data/session_loader.py:83 | a row no later row shares its id with is the one stored under that id |
| SessionLoader.AddMembersUntouched | data/session_loader.py:83 | an entry no row names is left as it was |
| SessionLoader.Assignments | data/session_loader.py:91-98 | one assignment per role row, in order, carrying the row's member id and role code and the requested session id |
| SessionLoader.Attach | data/session_loader.py:99-103 | the attachment loop succeeds exactly when every assignment names a loaded member, and otherwise fails with a ValueError; it adds or removes no member |
| SessionLoader.AttachAppends | data/session_loader.py:99-103 | each member's roles gain exactly that member's assignments, in file order |
| SessionLoader.AssignmentsNameMembers | data/session_loader.py:99-102 | with members keyed by the member rows' ids, every assignment finds its member exactly when every role row names a member row |
| SessionLoader.LoadSession | data/session_loader.py:63-115 | loading succeeds exactly when both files carry the requested session id, every member row parses, every role row names a member row and the id parses into years; a session id mismatch in either file or an unparsable id is an error; the loaded members are keyed by the ids of the member rows |
| SessionLoader.LoadSessionHeader | data/session_loader.py:91-110 | a loaded session has the requested id, the parsed years and the label built from them; every role row names a member row, and the assignments are the role rows stamped with the session id |
| SessionLoader.LoadSessionMembers | data/session_loader.py:73-103 | each loaded member is stored under its id and holds exactly its own assignments, in file order |
| EnrichDistance.ToMap | data/enrich_distance.py:14-54 | a dictionary built from entries has exactly the entries' keys |
| EnrichDistance.ToMapLookup | data/enrich_distance.py:14-54 | with distinct keys every entry survives into the dictionary with its own value |
| EnrichDistance.SwappedIsInverse | data/enrich_distance.py:54 | when keys and values are both distinct, the comprehension `{v: k for k, v in d.items()}` has the values of `d` as keys and undoes `d` in both directions |
| EnrichDistance.CountyToPrefixIsInverse | data/enrich_distance.py:38-54 | the county-to-prefix table is the exact inverse of the prefix-to-county table |
| EnrichDistance.OrdinalWordsTable | data/enrich_distance.py:14-36 | the ordinal table has 20 words, the i-th naming i + 1, and every value lies between 1 and 20 |
| EnrichDistance.ParseHouseCentroidKey | data/enrich_distance.py:92-107 | "BDN" is the Barnstable, Dukes and Nantucket district 1; any other key parses exactly when it is a run of capitals with a known prefix followed by digits, giving the prefix's county and the digits' value; otherwise a ValueError |
| EnrichDistance.CentroidKeyRoundTrip | data/enrich_distance.py:100-107 | a known all-capital prefix followed by digits parses to the prefix's county and the digits' value |
| EnrichDistance.MiddlesexExample | data/enrich_distance.py:93-94 | "MIDDLE02" is ("middlesex", 2) |
| EnrichDistance.ParseHouseDistrictName | data/enrich_distance.py:110-141 | a name mentioning "barnstable, dukes and nantucket" is that district, number 1; otherwise it parses exactly when at least two tokens remain after removing the word "district" and the first is an ordinal, giving the lower-cased last token and the ordinal's number; otherwise a ValueError |
| EnrichDistance.OrdinalNumberDigits | data/enrich_distance.py:133-135 | digits with no suffix or with "st", "nd", "rd" or "th" stand for the digits' value |
| EnrichDistance.OrdinalNumberWord | data/enrich_distance.py:136-139 | an ordinal word of the table stands for its number |
| EnrichDistance.DistrictNameDigitsRoundTrip | data/enrich_distance.py:112-141 | a number in digits, with or without a suffix, before a county parses back to the county and the number |
| EnrichDistance.DistrictNameWordRoundTrip | data/enrich_distance.py:114-141 | an ordinal word before a county parses back to the county and the word's number |
| EnrichDistance.CollapseSeps | data/enrich_distance.py:77 | the substitution keeps a leading non-separator and turns a leading separator run into one space |
| EnrichDistance.CollapseSepsCollapsed | data/enrich_distance.py:77 | after the substitution every separator is a space and no two spaces are adjacent |
| EnrichDistance.CollapseCollapsed | data/enrich_distance.py:77 | text that is already collapsed is left as it is |
| EnrichDistance.NormSenateNameClass | data/enrich_distance.py:72-78 | the key has no capitals and no separator but single spaces |
| EnrichDistance.NormSenateNameOfLower | data/enrich_distance.py:76 | names equal up to case get the same key |
| EnrichDistance.NormSenateNameTrailingComma | data/enrich_distance.py:76-77 | for a plain word w, "w," gets the key "w " while "w" and "w " get "w", and normalising "w " again changes it: the normaliser as written is not idempotent |
| EnrichDistance.SuffolkTrailingComma | data/enrich_distance.py:73-77 | "Suffolk," gets the key "suffolk " and "Suffolk" gets "suffolk" |
| EnrichDistance.NormSenateNameCanonicalClass | data/enrich_distance.py:72-75 | the corrected key is collapsed, has no capitals and has no space at either end |
| EnrichDistance.NormSenateNameCanonicalIdempotent | data/enrich_distance.py:72-75 | the corrected key is a fixed point of the normaliser |
| EnrichDistance.NormSenateNameAgrees | data/enrich_distance.py:72-78 | on a name with no separator at either end the corrected and the as-written keys coincide |
| IngestMembers.PartyToCode | ingest/members.py:26-32 | "D" exactly when the trimmed, lower-cased text starts with "democrat", "R" exactly when it starts with "republican", nothing exactly when it starts with neither |
| IngestMembers.PrefixesExclusive | ingest/members.py:28-31 | no text starts with both party words, so the two tests never compete |
| IngestMembers.PartyIgnoresCaseAndPadding | ingest/members.py:27 | surrounding whitespace and letter case do not change the code |
| IngestMembers.PartyCodeLoads | ingest/members.py:26-32 | every code the scraper emits, nothing included, is one the session loader accepts, as DEMOCRAT, REPUBLICAN or OTHER respectively |
| IngestMembers.DemocratExample | ingest/members.py:28-29 | "Democrat" is "D" |
| IngestMembers.RepublicanExample | ingest/members.py:30-31 | "Republican" is "R" |
| IngestMembers.UnenrolledExample | ingest/members.py:32 | "Unenrolled" has no code |
| IngestMembers.InferChamberFromSection | ingest/members.py:89-96 | "senate" exactly when the lower-cased header contains "senate"; "house" exactly when it contains "house" but not "senate"; nothing exactly when it contains neither |
| IngestMembers.InferredChamberLoads | ingest/members.py:89-96 | an inferred chamber is never "joint" and always parses in the session loader to the chamber of that value |
| IngestMembers.SenateHeaderExamples | unit/test_leadership_scraping.py:147-148 | "Senate" and "SENATE" are the senate |
| IngestMembers.HouseHeaderExamples | unit/test_leadership_scraping.py:150-151 | "House" and "HOUSE" are the house |
| IngestMembers.UnknownHeaderExample | unit/test_leadership_scraping.py:152 | "Unknown Section" is no chamber |
| IngestMembers.MemberIdFromPath | ingest/members.py:45-46 | the id contains neither "/" nor "?" |
| IngestMembers.MemberIdRoundTrip | ingest/members.py:127-128 | a profile link ending in "/id", optionally followed by "?query", gives back `id` |
| IngestMembers.MemberIdExamples | unit/test_leadership_scraping.py:109-130 | the profile links "/Legislators/Profile/KES0" and "/Legislators/Profile/R_M1" give "KES0" and "R_M1" |
| IngestMembers.MemberName | ingest/members.py:47-49 | the name is no longer than the parts with one space and has no whitespace at either end |
| IngestMembers.MemberNameCases | ingest/members.py:49 | with both parts present the name is the two joined by one space; with one part empty it is the other |
| IngestMembers.ParseMemberRow | ingest/members.py:35-61 | a row gives a member exactly when it has at least six cells and a non-blank profile link; the member has the id read from the stripped link, the name joined from the third and fourth cells, the requested chamber, the fifth cell as district and the party code of the sixth cell; the id is free of "/" and "?" |
| IngestMembers.ParseMemberRowOfLink | ingest/members.py:42-49 | a row whose picture link is a profile path `prefix/id` or `prefix/id?query`, with blanks around it or not, gives the member `id`; with both name cells present the name is the two joined by one space |
| IngestMembers.ParseMemberRows | ingest/members.py:73-78 | no more members than rows, all with the requested chamber |
| IngestMembers.ParseMemberRowsAppend | ingest/members.py:74-77 | the loop keeps table order: the members of two runs of rows are the members of each, concatenated |
| IngestMembers.ParseLeaderCard | ingest/members.py:99-178 | a card gives a role exactly when it has a non-blank profile link; the role has the id read from the stripped link, the requested chamber, and the role and district texts or "" where they are missing; the id is free of "/" and "?" |
| IngestMembers.ParseLeaderCardOfLink | ingest/members.py:124-128 | a card whose link is a profile path `prefix/id` or `prefix/id?query`, with blanks around it or not, gives a role for `id` |
| IngestMembers.LeaderCardExample | unit/test_leadership_scraping.py:109-118 | the Senate President's card gives KES0, senate, "President of the Senate", "Middlesex and Norfolk (D)" |
| IngestCommittees.CommitteeIdFromHref | ingest/committees.py:25-32 | the id never contains "/" |
| IngestCommittees.CommitteeIdOfPath | ingest/committees.py:29-31 | a link "/s0/s1/s2/…", with or without a trailing slash, gives back its third segment |
| IngestCommittees.ShortPathNoId | ingest/committees.py:30-32 | a link with fewer than three segments gives the empty id |
| IngestCommittees.CommitteeIdExample | ingest/committees.py:26-27 | "/Committees/Detail/S51/Committees" gives "S51" |
| IngestCommittees.RoleLabel | ingest/committees.py:35-48 | no span gives no label; a label is never empty and never ends in a comma |
| IngestCommittees.RoleLabelOfPrinted | ingest/committees.py:36-45 | a title printed with a trailing comma and blanks comes back as the title |
| IngestCommittees.RoleLabelEmpty | ingest/committees.py:45-48 | a span holding only blanks and commas gives no label |
| IngestCommittees.ViceChairLabelClassifies | ingest/committees.py:38 | "Vice Chair, " gives the label "Vice Chair", which the role classifier reads as a vice chair |
| IngestCommittees.NameAndId | ingest/committees.py:51-61 | an item without a link gives two empty strings; otherwise the link's text and the id of its target |
| IngestCommittees.CommitteeRoles | ingest/committees.py:89-106 | no more roles than items |
| IngestCommittees.CommitteeRolesEmitted | ingest/committees.py:96-104 | every role is for the member and session asked for and has a non-empty id |
| IngestCommittees.CommitteeRolesAppend | ingest/committees.py:93-105 | items are read in page order: the roles of two runs of items are the roles of each, concatenated |
| IngestCommittees.CommitteeRolesSingle | ingest/committees.py:93-105 | one item gives one role exactly when its link yields an id, carrying that id, the link's name and the item's label, and none otherwise |
| MemberProfileTool.FlattenFindsReachable | tools/member_profile.py:35-43 | the recursive walk collects a citation exactly when it is one of the items or sits inside one of their nested groups |
| MemberProfileTool.Dedup | tools/member_profile.py:44-49 | the kept citations have pairwise distinct ids, none of them seen before, each taken from the input, and no more than the input |
| MemberProfileTool.DedupIds | tools/member_profile.py:44-49 | every id not seen before survives, and no other |
| MemberProfileTool.DedupDistinctNoop | tools/member_profile.py:44-49 | a list whose ids are already distinct and unseen comes through unchanged |
| MemberProfileTool.ExtractProvenance | tools/member_profile.py:31-50 | no more entries than citations met on the walk |
| MemberProfileTool.ExtractProvenanceUnique | tools/member_profile.py:44-49 | no two entries carry the same source id |
| MemberProfileTool.ExtractProvenanceIds | tools/member_profile.py:31-50 | an id has an entry exactly when some citation reachable from the items carries it |
| MemberProfileTool.AmountProvenanceIds | tools/member_profile.py:87-93 | whatever order the set of an amount's citations is walked in, an id has an entry exactly when one of the amount's citations carries it |
| MemberProfileTool.FirstIndexOf | tools/member_profile.py:69-76 | the first position holding the key, and -1 exactly when the key is absent |
| MemberProfileTool.RemoveAt | tools/member_profile.py:75 | `pop(i)` removes exactly one occurrence of the element at i |
| MemberProfileTool.MatchPaid | tools/member_profile.py:68-76 | one paid mark per raw stipend |
| MemberProfileTool.MatchPaidFlag | tools/member_profile.py:68-76 | raw stipend k is marked paid exactly when fewer equal (role, amount) stipends come before it than there are paid roles with that role and amount |
| MemberProfileTool.MatchPaidMarks | tools/member_profile.py:68-76 | the stipends marked paid are, as a multiset, the common part of the raw stipends and the paid roles |
| MemberProfileTool.MatchPaidCountBounded | tools/member_profile.py:68-76 | no more stipends are marked paid than there are paid roles, nor than raw stipends |
| MemberProfileTool.MatchPaidCountExact | tools/member_profile.py:68-76 | when the paid roles are drawn from the raw stipends, exactly as many stipends are marked paid as there are paid roles |
| MemberProfileTool.BaseAmount | tools/member_profile.py:65-67 | a factor of 1 keeps the amount; a factor of 0 is a ZeroDivisionError, and no other factor fails |
| MemberProfileTool.BaseAmountUndoesScale | tools/member_profile.py:65-67 | dividing a rounded scaled amount by a factor of at least 1 and rounding gives back the base amount |
| MemberProfileTool.BreakdownEntry | tools/member_profile.py:63-89 | an unknown role code raises the catalog's error; an entry is built exactly when the role is known and the factor is not 0, with the role code, the adjusted amount, the paid mark and the factor |
| MemberProfileTool.BreakdownEntries | tools/member_profile.py:63-89 | one entry per raw stipend |
| MemberProfileTool.BreakdownEntriesFields | tools/member_profile.py:77-89 | entry k is raw stipend k's, at its adjusted amount, with its paid mark |
| MemberProfileTool.BreakdownEntriesFail | tools/member_profile.py:63-67 | the loop fails exactly when some role code is unknown, or there is a stipend and the factor is 0 |
| MemberProfileTool.StipendsBreakdown | tools/member_profile.py:59-90 | one entry per raw stipend |
| MemberProfileTool.StipendsBreakdownFails | tools/member_profile.py:63-67 | the breakdown fails exactly when some role code is not in the catalog, or there is a stipend and the factor is 0 |
| MemberProfileTool.BreakdownOrdered | tools/member_profile.py:90 | paid entries come first, and within each group the adjusted amounts do not increase |
| MemberProfileTool.BreakdownStable | tools/member_profile.py:90 | entries with equal paid mark and amount keep their raw order |
| MemberProfileTool.BreakdownPaidCount | tools/member_profile.py:68-90 | the breakdown marks at most as many entries paid as there are paid roles, and exactly as many when the paid roles are drawn from the raw stipends |
| MemberProfileTool.BaseSalaryDetails | tools/member_profile.py:97-107 | the details hold the base amount 62548 and the file's factor, 1.0 when the file has none |
| MemberProfileTool.StipendDetails | tools/member_profile.py:108-115 | the details hold the breakdown, the number of raw stipends, the number of paid roles, and the discarded count, which makes up the difference |
| MemberProfileTool.DiscardedAreUnpaid | tools/member_profile.py:109-114 | when the paid roles are drawn from the raw stipends, the discarded count is the number of breakdown entries not marked paid |
| SessionReportTool.RowTotalIsSum | tools/session_report.py:24-36 | a member's row total is its base salary, 9B stipends and 9C travel together |
| SessionReportTool.WithChamber | tools/session_report.py:86 | the rows kept are rows of the input, all in the chamber asked for |
| SessionReportTool.WithChamberEmpty | tools/session_report.py:86-87 | a chamber's list is non-empty exactly when some row is in that chamber |
| SessionReportTool.WithParty | tools/session_report.py:97 | the rows kept are rows of the input, all of the party asked for |
| SessionReportTool.Average | tools/session_report.py:92-124 | the average times the count gives back the total, and no members give 0 |
| SessionReportTool.MedianBetween | tools/session_report.py:93-125 | the median lies between the smallest and the largest of the values |
| SessionReportTool.ChamberStats | tools/session_report.py:88-94 | a chamber with members has a positive count and a median |
| SessionReportTool.ChamberEntry | tools/session_report.py:86-94 | a chamber has one entry exactly when it has members, under its own name, counting and totalling those members |
| SessionReportTool.ByChamberNames | tools/session_report.py:84-94 | the keys are "house" and "senate", house before senate, each at most once |
| SessionReportTool.ByChamberEntries | tools/session_report.py:84-94 | each chamber's entry counts and totals exactly the rows in that chamber, and there are some |
| SessionReportTool.ByChamberKeys | tools/session_report.py:85-87 | house or senate has a key exactly when some row sits in it |
| SessionReportTool.ChambersPartition | tools/session_report.py:84-94 | when every row is in the house or the senate, the two entries' counts and totals add up to those of the whole session |
| SessionReportTool.PartiesOfSound | tools/session_report.py:96 | the parties are listed once each and every row's party is listed |
| SessionReportTool.ByPartyCountsSum | tools/session_report.py:95-104 | every row is counted under exactly one party, so the counts add up to the number of rows |
| SessionReportTool.ByPartyEntries | tools/session_report.py:95-104 | each party entry counts and totals exactly the rows of that party, and there are some |
| SessionReportTool.StipendDistributionCovers | tools/session_report.py:105-108 | with no negative stipend total every row falls in exactly one of the two bins |
| SessionReportTool.NegativeStipendUncounted | tools/session_report.py:105-108 | a row with a negative stipend total falls in neither bin |
| SessionReportTool.TopRows | tools/session_report.py:109 | ten rows, or all of them when there are fewer |
| SessionReportTool.TopEarners | tools/session_report.py:109-119 | ten entries, or one per row when there are fewer, ranked 1, 2, … in order |
| SessionReportTool.TopEarnersOrdered | tools/session_report.py:109 | totals do not increase down the list, and no row left off earns more than the last one listed |
| SessionReportTool.TopEarnersTies | tools/session_report.py:109 | rows with equal totals that make the list keep their input order and are the first of their total |
| SessionReportTool.SummaryTotals | tools/session_report.py:78-130 | the average times the member count gives the total compensation; the party counts add up to the member count; the earners list has ten entries or one per member when there are fewer; with no negative stipend total the zero and non-zero stipend bins together hold every member; when every chamber is house or senate, the two chamber groups together hold every member and their totals add up to the total compensation |
| SessionReportTool.ByChamberSums | tools/session_report.py:84-94 | the chamber groups' counts and totals are those of the house and senate rows together |
| SessionReportTool.SummaryAverage | tools/session_report.py:124 | an average taken over a non-zero count, multiplied back by the count, gives the total |
| SessionReportTool.EmptySummary | tools/session_report.py:120-130 | a session with no rows reports zeros, no groups and no earners |
| ToolModels.FromSourceRef | tools/models.py:21-31 | the entry keeps the citation's id, label and url, and has details exactly when the citation has some |
| ToolModels.FromSourceRefRoundTrip | tools/models.py:21-31 | nothing of a citation is lost: the kind's name and the details read back to the same citation |
| ToolModels.ProvenanceToDict | tools/models.py:33-36 | no value is null, and the three required fields are joined by url and details exactly when they are set |
| ToolModels.ProvenanceDictKeys | tools/models.py:33-36 | each set field appears under its own key with its value, and an unset one is absent |
| ToolModels.ProvenanceDictRoundTrip | tools/models.py:33-36 | reading the dictionary back gives the entry |
| ToolModels.RoleStipendToDict | tools/models.py:53-55 | every field appears in declaration order, a missing tier as null |
| ToolModels.RoleStipendDictInjective | tools/models.py:53-55 | two entries with the same dictionary are the same entry |
| ToolModels.ComponentToDict | tools/models.py:67-70 | no value is null; label, amount and provenance come first, and details follows exactly when it is set |
| ToolModels.ComponentDictRoundTrip | tools/models.py:67-70 | reading the dictionary back gives the component |
| ToolModels.MemberProfileToDict | tools/models.py:88-90 | every field appears in declaration order, a missing district or distance as null |
| ToolModels.MemberProfileDictInjective | tools/models.py:88-90 | two profiles with the same dictionary are the same profile |
| Sorting.SortBy | tools/member_profile.py:90 | the sorted list is a permutation of the input |
| Sorting.SortBySorted | tools/member_profile.py:90 | the sorted list is in key order |
| Sorting.SortByStable | tools/session_report.py:109 | the elements of any one key come out in the order they went in |
| Sorting.SortBySortedInput | tools/member_profile.py:90 | an input already in key order is left as it is |
| Strings.Split | data/session_loader.py:57 | `split("-")` gives at least one piece, and no piece contains the separator |
| Strings.JoinSplit | data/session_loader.py:57 | joining the pieces of a split with the separator gives back the text |
| Strings.SplitJoin | data/session_loader.py:57 | splitting pieces free of the separator after joining them gives back the pieces |
| Strings.WordsAreWords | data/enrich_distance.py:129 | every piece of `split()` is a non-empty run without whitespace |
| Strings.WordsJoin | data/enrich_distance.py:129 | words joined by single spaces split back into the same words |
| Strings.ParseInt | data/session_loader.py:60 | `int()` succeeds only on text holding a digit |
| Strings.ParseIntDigits | data/session_loader.py:60 | a run of digits parses to its value |
| Strings.ParseIntNegative | data/session_loader.py:60 | a minus sign before a run of digits parses to the negated value |
| Strings.ParseIntToString | data/session_loader.py:60-109 | printing an integer and parsing the text gives back the integer |
| Strings.LowerStripIdempotent | scripts/normalize_leadership.py:10-11 | lowering and stripping a second time changes nothing |

## Left out

- HTML scraping and HTTP (`ingest/common.py`, the BeautifulSoup traversal, `scrape_*`, `dump_*`, `urljoin` and `profile_url`) are left out because they are network I/O and a third-party parser. A table row, a leadership card and a committee list item are given as the texts and links the scraper reads from them.
- The session option chosen on a member's committees page (`ingest/committees.py:78-88`) is left out because it only selects which page is fetched.
- File and JSON I/O is left out: the `main()` functions, the file reads in `load_session` and `enrich_members_with_distance`, `config/comp_adjustment.py`, the writers, the HTML viewer and the CLI. The loader takes the two decoded payloads as records.
- `haversine_miles`, `build_senate_centroid_index`, `build_house_centroid_index` and `enrich_members_with_distance` are left out because they are floating-point geometry over the parsed keys and file I/O. The parsers they call are modelled.
- The paid-role selection engine (`select_paid_roles_for_member`) is referenced by the source but defined in no file of it. It is the parameter `Rules9B.Selector`, constrained only by the unit tests' examples. No caps, tie-breaks or fallbacks are invented.
- The same applies to `STIPEND_TIERS`, `load_stipend_adjustment` and `load_travel_adjustment`. `STIPEND_TIERS` is a parameter of the validator. The adjustment factors are parameters.
- `validate_session_data`, `validate_distance_margins` and `_validate_member_raw_roles` are not part of this model. Neither are the validation issues of a member profile or the validation summary of a session report.
- The free-text `reason` and `rule_applied` strings are left out, because they embed float formatting and nothing downstream reads them. So is the regular-expression read-back of the travel amount from `rule_applied` (`tools/member_profile.py:116-128`).
- The report's `generated_at` timestamp is left out because it reads the clock.
- The order in which Python iterates a `set` or `frozenset` is left out, because the language does not define it. Where an output depends on it, the order is a parameter: the citations of an amount are walked by `iterate`. Party keys come in order of first appearance, and only their contents are stated.
- The verbatim copies of `normalize_role_label`, `committee_role_to_internal` and `normalize_leadership_title` in `scripts/normalize_all_roles.py` are modelled once, by the members for `data/normalize.py`, because the copies are line for line the same.
- Strings are ASCII. Python's case folding and whitespace for other characters are left out. `int()` is modelled without digit-group underscores and without non-ASCII digits.
- Provenance.Scale: the factor is an exact real and rounding is round-half-even on exact values. Python multiplies floats, so results can differ when the float product lands on a .5 boundary that the exact product misses, or the other way round.
- MemberProfileTool.BaseAmount: `round(value / factor)` is computed on exact reals, not floats, for the same reason.
- SessionReportTool.Average: the average is an exact real, where Python divides floats.
- SessionReportTool.MedianBetween: `statistics.median` is an exact real here. Only its position between two of the values is stated, not its float rounding.
- Rules9C.Travel9CForMember: distances are exact reals. Only the comparison with the 50.0-mile threshold matters.
- The committee catalog's constructor in the source passes `chamber=` to a dataclass that declares `primary_chamber`. It also builds `COMMITTEES_BY_CODE` as a set of codes through a chained `Final` assignment. Both would fail on import. The model builds the code and external-id dictionaries that the rest of the code reads.
- `Member` in the source declares `roles` without a default after fields that have one, which Python rejects. The model keeps the evident intent: an ordered list of assignments that starts empty.
- The leadership codes the normaliser returns (for example `SENATE_MAJORITY_FLOOR_LEADER`) are plain strings, because most of them are not members of the `RoleCode` enumeration.
- TotalComp.SpeakerTotalExample: the unit test's expectation is proved only for a selection that satisfies `Rules9B.MeetsTestExamples`, which collects the unit tests' expected selections. The selection engine itself is not part of this model.
- The unit tests' `total == int` comparisons and stale labels (`unit/test_total_comp.py`, `unit/test_demo_session.py`) are not modelled. Only the amounts they check are used.
- Provenance.SourceRef: `details` is a sequence, while the source uses a frozenset. Two citations whose details differ only in order or repetition are equal in Python and unequal here. Every registered source has empty details, so no result of the model changes.
- The `repr` of a name or of a session id in a `ValueError` message is modelled as the name in single quotes. Python's choice of double quotes and its escaping are left out.
- Rules9B.RoleStipend: the amount is modelled as an amount with provenance, while the source declares it a plain integer (`models/rules_9b.py:26`) and stores the rounded tier amount there (`models/rules_9b.py:46-51`). As written, every reader of `.value` or `.sources` on it raises: `tools/member_profile.py:65`, `:72` and `:87`, and `models/total_comp.py:45`. The members of MemberProfileTool built on it (BaseAmount, MatchPaid, BreakdownEntry, BreakdownEntries, StipendsBreakdown, StipendDetails and their lemmas) therefore model the evidently intended reading, not the code as written. For the total this is stated both ways in Findings.
- TotalComp.ComponentsInDetail: it states the components of the corrected total. As written no component list is ever returned, because the sum raises first (see Findings).

## Findings

| source | as written | input that shows it | evidently intended | confidence | as-written member | corrected member |
|---|---|---|---|---|---|---|
| data/enrich_distance.py:76-77 | `norm_senate_name` strips the name before collapsing runs of commas and whitespace, so a trailing comma becomes a trailing space | "Suffolk," gives "suffolk ", while "Suffolk" gives "suffolk"; normalising "suffolk " again gives "suffolk", so the function is not idempotent and the two spellings get different keys | collapse first, then strip, so that the key is a fixed point and has no space at either end | not executed | EnrichDistance.NormSenateNameTrailingComma | EnrichDistance.NormSenateNameCanonicalIdempotent |
| validators.py:18-21 | the unknown-tier message is a parenthesised f-string followed by a comma, so the issue's `message`, declared `str` at audit/issues.py:26, is a one-element tuple | any role whose tier is not a known tier, for example SPEAKER with tier "TIER_X": the message prints as `('Role SPEAKER references unknown stipend_tier_id TIER_X',)` | the message is the text itself | not executed | Validators.TierErrorMessagePrintsAsTuple | Validators.TierError |
| data/normalize.py:40-48 | the loop compares the role catalog's committee codes (`WAYS_MEANS_HOUSE` at config/role_catalog.py:39) with the committee catalog's codes (`HOUSE_WAYS_AND_MEANS` at config/committee_catalog.py:409), which never have the same form, so no committee role is ever mapped to a priced role | "Chair" on committee H34 in the House gives GENERIC_OTHER_COMMITTEE_CHAIR instead of HOUSE_WM_CHAIR | look the committee up under the role catalog's spelling of its code, so that each committee chair the role catalog prices gets its own code | not executed | Normalize.HouseWaysAndMeansChairAsWritten | Normalize.IntendedCommitteeChairPriced |
| models/total_comp.py:41-65 | the 9B stipends are summed from the paid roles' plain integer amounts, the base component is the whole `BaseSalary` record, and the travel component is the plain integer from `travel_9c_for_member`; `ap_add` (audit/provenance.py:50-56) reads `.value` from each operand, so the total raises AttributeError on every call | the unit tests' House Speaker 10 miles away (unit/test_total_comp.py:14-35), expected to total 170,000, raises AttributeError on 'int' reading `value` from the Speaker's 80,000; a member with no paid role raises on 'BaseSalary' instead | sum the base salary's amount, the 9B stipends as amounts and the travel as an amount, giving 75,000 + 80,000 + 15,000 for the Speaker | not executed | TotalComp.TotalCompForMemberAsWritten | TotalComp.TotalCompForMember |

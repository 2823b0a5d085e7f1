# Eagle Bank API ledger, in Dafny

This project models the core of the Eagle Bank API, a Spring Boot service with users, bank accounts and transactions. The core modelled is:

- the three services (users, bank accounts, transactions) and the rules they enforce: ownership checks, partial updates, email uniqueness, "a user who owns accounts cannot be deleted", and deposits and withdrawals with the overdraft check;
- the two entities and their persistence hooks, and the generated account number;
- the repositories' derived queries;
- the transaction-type parse;
- the authentication interceptor's verdict;
- the global exception handler's mapping from exception to HTTP reply.

Money is a count of cents, since every amount is a BigDecimal at scale 2. Clock readings, `System.currentTimeMillis` and `Math.random` are parameters.

The three tables live in `Store.Database`, a class with one map per table, a sequence of transaction rows in the order they were saved, and the identity counters. `Database.Valid()` is the invariant every service call keeps:

- every user and account is stored under its own id, below the next id to be issued;
- transaction ids are below the next id to be issued and increase in the order the rows were saved, so no two rows share one;
- no two users share an email;
- no two accounts share an account number;
- every account belongs to a stored user and has a non-negative balance;
- every transaction belongs to a stored account and records a non-negative balance;
- the ledger is consistent. Replaying an account's transactions in the order they were saved, from the balance the account was opened with, reproduces every recorded balance-after and ends at the account's current balance.

It follows that an account's balance is the balance-after of its latest transaction (`Store.LatestTransactionCarriesBalance`). The balance is also the fold of its history's effects (`Store.BalanceIsFoldOfHistory`).

Each service call is one step. A refused call (an exception in the source) returns `Failure` with the exception as a value and leaves every table as it was, as the call's transaction rollback does. The service methods state their whole new state. Each write they perform has a lemma in `Store` showing that it keeps the invariant.

Modules:

| file | module | models |
|---|---|---|
| wrappers.dfy | Wrappers | Option and Result |
| java_text.dfy | JavaText | Long.toString, Long.parseLong, String.trim, String.equalsIgnoreCase, BigDecimal scale-2 text |
| errors.dfy | Errors | the exceptions the services throw |
| transaction_type.dfy | TransactionTypes | the TransactionType enum |
| exception_handler.dfy | ExceptionHandler | the global exception handler |
| authentication.dfy | Authentication | the authentication interceptor |
| users.dfy | Users | the user row and the user patch |
| bank_account.dfy | BankAccounts | the BankAccount entity, its hooks and its account number |
| transaction.dfy | Transactions | the Transaction entity and its hook |
| repositories.dfy | Repositories | the three repositories' queries |
| store.dfy | Store | the tables, their invariant and the repositories' save and delete |
| user_service.dfy | UserService | UserService |
| bank_account_service.dfy | BankAccountService | BankAccountService |
| transaction_service.dfy | TransactionService | TransactionService |

## Model

| member | source | states |
|---|---|---|
| TransactionService.CreateTransaction | src/main/java/com/eaglebank/eagle_bank_api/service/TransactionService.java:37-73 | The result is `Posting` of the old account table. A refused call changes nothing. A posted call appends exactly the returned row, and gives the account the row's balance-after as its balance, stamping the update time only when the balance moved. The invariant, including the ledger replay, is kept. |
| TransactionService.Posting | src/main/java/com/eaglebank/eagle_bank_api/service/TransactionService.java:37-73 | The ownership lookup's refusal comes first, then the type parse's refusal, then the funds refusal, which happens exactly when a withdrawal exceeds the balance and carries the balance in its message. A posted row has the next id, the given amount and description, the type's canonical name and the clock's date. Its balance-after is the ledger's replay step, and it is never negative from a non-negative balance and amount. |
| TransactionService.Persist | src/main/java/com/eaglebank/eagle_bank_api/service/TransactionService.java:65-70 | The account row with its new balance is saved, then the transaction row carrying the same balance is appended under the next id, and the invariant is kept. |
| TransactionService.Settle | src/main/java/com/eaglebank/eagle_bank_api/service/TransactionService.java:44-54 | A deposit adds the amount. A withdrawal is refused exactly when the amount exceeds the balance, with "Insufficient funds. Current balance: " and the balance as BigDecimal text; otherwise it subtracts. A non-negative balance stays non-negative. |
| TransactionService.WithdrawalUndoesDeposit | src/main/java/com/eaglebank/eagle_bank_api/service/TransactionService.java:47-53 | Withdrawing what was just deposited restores a non-negative balance. |
| TransactionService.SettleIsReplayStep | src/main/java/com/eaglebank/eagle_bank_api/service/TransactionService.java:47-62 | The balance the service computes is the ledger's replay of the stored row, whose type is the constant's name. |
| TransactionService.PostingAccepts | src/main/java/com/eaglebank/eagle_bank_api/service/TransactionService.java:57-70 | When the lookup, the parse and the funds check all pass, the row posted is exactly the one built from the inputs and the settled balance. |
| TransactionService.PostedRowMeetsConstraints | src/main/java/com/eaglebank/eagle_bank_api/entity/Transaction.java:28-35 | A posted row meets the entity's declared constraints (amount at least 0.01, type not blank) exactly when the amount is at least one cent. |
| TransactionService.DepositExamples | src/test/java/com/eaglebank/eagle_bank_api/service/TransactionServiceTest.java:90-114 | 1000.00 plus a deposit of 500.00 is 1500.00; a deposit of 0.00 leaves 1000.00. |
| TransactionService.WithdrawalExamples | src/test/java/com/eaglebank/eagle_bank_api/service/TransactionServiceTest.java:171-197 | 1000.00 less 200.00 is 800.00; withdrawing the whole 1000.00 leaves 0.00. |
| TransactionService.InsufficientFundsExample | src/test/java/com/eaglebank/eagle_bank_api/service/TransactionServiceTest.java:151-169 | Withdrawing 1500.00 from 1000.00 is refused with "Insufficient funds. Current balance: 1000.00". |
| TransactionService.StrangerPostingExample | src/main/java/com/eaglebank/eagle_bank_api/service/TransactionService.java:38-41 | Posting to another user's account is Forbidden before the type is read, even when the type is null. |
| TransactionService.GetAccountTransactions | src/main/java/com/eaglebank/eagle_bank_api/service/TransactionService.java:75-83 | It gives the ownership lookup's refusal, or else that account's rows, newest first and a permutation of the account's history. |
| TransactionService.GetUserTransactions | src/main/java/com/eaglebank/eagle_bank_api/service/TransactionService.java:85-90 | With no existence or ownership check, it gives exactly the rows of the accounts the requester owns, newest first, as a permutation. |
| BankAccountService.FindByIdAndValidateOwnership | src/main/java/com/eaglebank/eagle_bank_api/service/BankAccountService.java:100-109 | ResourceNotFound exactly when no account has the id. Forbidden exactly when the account exists and its owner is not the requester. Otherwise the stored account, unchanged. |
| BankAccountService.StrangerLearnsExistence | src/main/java/com/eaglebank/eagle_bank_api/service/BankAccountService.java:55-62 | Existence is checked before ownership, so a non-owner gets Forbidden for an existing account and ResourceNotFound once it is gone. |
| BankAccountService.GetUserBankAccounts | src/main/java/com/eaglebank/eagle_bank_api/service/BankAccountService.java:48-53 | Exactly the stored accounts the requester owns. No user-existence check is made. |
| BankAccountService.CreateBankAccount | src/main/java/com/eaglebank/eagle_bank_api/service/BankAccountService.java:33-45 | ResourceNotFound when the requester is not a stored user. An Internal failure, storing nothing, when the generated number is already stored. Success exactly when the user is stored and the number is fresh, and then one new row under the next id with the given name, type and balance, the requester as owner, the generated number and both timestamps from the clock. The invariant is kept. |
| BankAccountService.PatchedAccount | src/main/java/com/eaglebank/eagle_bank_api/service/BankAccountService.java:76-83 | A supplied name or type replaces the stored one. Id, balance, number, owner and timestamps are untouched. |
| BankAccountService.EmptyAccountPatchIsIdentity | src/main/java/com/eaglebank/eagle_bank_api/service/BankAccountService.java:76-84 | An update with neither field leaves the account as it was. |
| BankAccountService.Flushed | src/main/java/com/eaglebank/eagle_bank_api/entity/BankAccount.java:72-75 | The pre-update hook: the row written at commit is unchanged when no column changed, and otherwise is the edited row with only its update time set to the clock. |
| BankAccountService.UpdateBankAccount | src/main/java/com/eaglebank/eagle_bank_api/service/BankAccountService.java:67-86 | The lookup's refusal with the "update" message, changing nothing. Otherwise the patched account is returned with its previous update time, and the stored row is the patched one, stamped only if it changed. The balance never changes. |
| BankAccountService.DeleteBankAccount | src/main/java/com/eaglebank/eagle_bank_api/service/BankAccountService.java:88-97 | The lookup's refusal with the "delete" message, changing nothing. Otherwise the account and, by the cascade, all its transactions are removed, and every other account's history is exactly as it was. |
| UserService.GetUserById | src/main/java/com/eaglebank/eagle_bank_api/service/UserService.java:45-55 | Forbidden exactly when the id is not the requester's. ResourceNotFound exactly when it is but no such user is stored. Otherwise the stored user. |
| UserService.StrangerLearnsNothing | src/main/java/com/eaglebank/eagle_bank_api/service/UserService.java:45-49 | Ownership is checked before existence, so a stranger's answer does not depend on what is stored. |
| UserService.Patched | src/main/java/com/eaglebank/eagle_bank_api/service/UserService.java:66-85 | Each supplied field replaces the stored one and every other field keeps its value. The id never changes. |
| UserService.EmptyPatchIsIdentity | src/main/java/com/eaglebank/eagle_bank_api/service/UserService.java:66-85 | A patch supplying nothing leaves the user as stored. |
| UserService.PatchIdempotent | src/main/java/com/eaglebank/eagle_bank_api/service/UserService.java:66-85 | Applying a patch twice equals applying it once. |
| UserService.OwnEmailNeverClashes | src/main/java/com/eaglebank/eagle_bank_api/service/UserService.java:73-78 | Resubmitting one's own email never raises the email Conflict. |
| UserService.NoClashKeepsEmailsUnique | src/main/java/com/eaglebank/eagle_bank_api/service/UserService.java:73-79 | An update that passes the email check keeps every email held by a single user. |
| UserService.CreateUser | src/main/java/com/eaglebank/eagle_bank_api/service/UserService.java:27-43 | Conflict "Email already exists", storing nothing, exactly when some stored user has the email. Otherwise the five fields are stored under the next id, and looking up the email then finds exactly that user. |
| UserService.UpdateUser | src/main/java/com/eaglebank/eagle_bank_api/service/UserService.java:57-89 | Forbidden, then ResourceNotFound, then the email Conflict, each changing nothing. Success exactly when the requester is the stored user and the email does not clash, and then the stored user becomes the patched user. |
| UserService.DeleteUser | src/main/java/com/eaglebank/eagle_bank_api/service/UserService.java:91-106 | Forbidden, then ResourceNotFound, then Conflict while the user owns any account, each changing nothing. The user is removed exactly when all three checks pass. |
| BankAccounts.GenerateAccountNumber | src/main/java/com/eaglebank/eagle_bank_api/entity/BankAccount.java:77-79 | "EB" followed only by digits, at least four characters. |
| BankAccounts.SameMillisDistinctDraws | src/main/java/com/eaglebank/eagle_bank_api/entity/BankAccount.java:77-79 | Within one millisecond, different draws give different numbers. |
| BankAccounts.NumbersCanCollide | src/main/java/com/eaglebank/eagle_bank_api/entity/BankAccount.java:47 | Different (millisecond, draw) pairs can give the same number, because neither part is padded. Uniqueness rests on the unique column alone. |
| BankAccounts.Draw | src/main/java/com/eaglebank/eagle_bank_api/entity/BankAccount.java:78 | The truncated draw from a random value in [0, 1) lies in 0..999 and is the floor of the value times 1000. |
| BankAccounts.BankAccount.constructor | src/main/java/com/eaglebank/eagle_bank_api/entity/BankAccount.java:84-89 | Name, type, balance and owner come from the arguments. Id, number and timestamps are unset. |
| BankAccounts.BankAccount.OnCreate | src/main/java/com/eaglebank/eagle_bank_api/entity/BankAccount.java:63-70 | Both timestamps are set from the clock. A number is generated only when none is set, and a preset number is kept. Nothing else changes. |
| BankAccounts.BankAccount.Row | src/main/java/com/eaglebank/eagle_bank_api/entity/BankAccount.java:29-58 | The stored row of a persisted object carries each of its columns. |
| Transactions.TransactionEntity.constructor | src/main/java/com/eaglebank/eagle_bank_api/entity/Transaction.java:58-65 | Amount, type, description, balance-after and account are stored as given. Id and date are unset. |
| Transactions.TransactionEntity.OnCreate | src/main/java/com/eaglebank/eagle_bank_api/entity/Transaction.java:50-53 | Only the date changes, to the clock. |
| Transactions.TransactionEntity.Row | src/main/java/com/eaglebank/eagle_bank_api/entity/Transaction.java:24-48 | The stored row of a persisted object carries each of its columns and exactly one account. |
| TransactionTypes.FirstMatch | src/main/java/com/eaglebank/eagle_bank_api/enums/TransactionType.java:18-22 | A found constant is one of those searched and matches ignoring case. None means no searched constant matches, or the value is null. |
| TransactionTypes.FromValue | src/main/java/com/eaglebank/eagle_bank_api/enums/TransactionType.java:17-24 | Success exactly when the value equals "DEPOSIT" or "WITHDRAWAL" ignoring case. Otherwise IllegalArgument naming the input, or "null". |
| TransactionTypes.NamesDisjoint | src/main/java/com/eaglebank/eagle_bank_api/enums/TransactionType.java:4-5 | No string matches both names, so the parse is unambiguous. |
| TransactionTypes.RoundTrip | src/main/java/com/eaglebank/eagle_bank_api/enums/TransactionType.java:13-21 | Parsing a constant's own value gives that constant back. |
| TransactionTypes.CaseInsensitiveExamples | src/main/java/com/eaglebank/eagle_bank_api/enums/TransactionType.java:17-23 | "deposit" and "Withdrawal" parse. "TRANSFER" fails. Null fails with "Invalid transaction type: null". |
| Repositories.FindById | src/main/java/com/eaglebank/eagle_bank_api/repository/UserRepository.java:13 | Found exactly when the key is stored, and then it is the stored row. |
| Repositories.FindByEmail | src/main/java/com/eaglebank/eagle_bank_api/repository/UserRepository.java:15 | A stored user with that email, or empty only when no stored user has it. |
| Repositories.ExistsByEmail | src/main/java/com/eaglebank/eagle_bank_api/repository/UserRepository.java:17 | True exactly when findByEmail finds someone. |
| Repositories.FindByEmailUnique | src/main/java/com/eaglebank/eagle_bank_api/repository/UserRepository.java:15 | With unique emails, findByEmail finds exactly the holder. |
| Repositories.HasBankAccounts | src/main/java/com/eaglebank/eagle_bank_api/repository/UserRepository.java:19-20 | The count of owned accounts is positive exactly when some stored account has the user as owner. |
| Repositories.FindByUserUserId | src/main/java/com/eaglebank/eagle_bank_api/repository/BankAccountRepository.java:14 | Exactly the accounts whose owner is the user. Empty exactly when the user owns none. |
| Repositories.FindByAccountNumber | src/main/java/com/eaglebank/eagle_bank_api/repository/BankAccountRepository.java:16 | The account with that number, or empty only when no account has it. |
| Repositories.ExistsByAccountNumber | src/main/java/com/eaglebank/eagle_bank_api/repository/BankAccountRepository.java:18 | True exactly when findByAccountNumber finds an account. |
| Repositories.ForAccount | src/main/java/com/eaglebank/eagle_bank_api/repository/TransactionRepository.java:13 | Exactly the rows of that account. |
| Repositories.ForAccountAppend | src/main/java/com/eaglebank/eagle_bank_api/repository/TransactionRepository.java:11 | Saving a row adds it at the end of its own account's history and leaves every other history as it was. |
| Repositories.Purge | src/main/java/com/eaglebank/eagle_bank_api/entity/BankAccount.java:60-61 | The cascade keeps exactly the rows of other accounts. |
| Repositories.PurgeKeepsOthers | src/main/java/com/eaglebank/eagle_bank_api/entity/BankAccount.java:60-61 | The cascade leaves every other account's history exactly as it was, in order. |
| Repositories.PurgeEmptiesAccount | src/main/java/com/eaglebank/eagle_bank_api/entity/BankAccount.java:60-61 | After the cascade the deleted account has no rows left. |
| Repositories.ForAccountConcat | src/main/java/com/eaglebank/eagle_bank_api/repository/TransactionRepository.java:13 | Filtering by account distributes over concatenation. |
| Repositories.ForOwner | src/main/java/com/eaglebank/eagle_bank_api/repository/TransactionRepository.java:15 | Exactly the rows whose account is owned by the user. |
| Repositories.InsertByDate | src/main/java/com/eaglebank/eagle_bank_api/repository/TransactionRepository.java:13 | Inserting a row gives a permutation of the list plus that row. |
| Repositories.InsertKeepsOrder | src/main/java/com/eaglebank/eagle_bank_api/repository/TransactionRepository.java:13 | Inserting into a newest-first list keeps it newest first. |
| Repositories.SortByDateDesc | src/main/java/com/eaglebank/eagle_bank_api/repository/TransactionRepository.java:13 | The result is newest first and a permutation of the input. |
| Repositories.AccountTransactionsByDateDesc | src/main/java/com/eaglebank/eagle_bank_api/repository/TransactionRepository.java:13 | Exactly the account's rows, newest first, as a permutation of its history. |
| Repositories.UserTransactionsByDateDesc | src/main/java/com/eaglebank/eagle_bank_api/repository/TransactionRepository.java:15 | Exactly the rows of the user's accounts, newest first, as a permutation. |
| Store.ReplaysAppend | src/main/java/com/eaglebank/eagle_bank_api/service/TransactionService.java:57-70 | A row whose balance-after is the current balance with its effect applied extends a consistent replay. |
| Store.BalanceIsLatestBalanceAfter | src/main/java/com/eaglebank/eagle_bank_api/service/TransactionService.java:57-66 | A replayed balance is the balance-after of the latest row. |
| Store.BalanceIsFold | src/main/java/com/eaglebank/eagle_bank_api/service/TransactionService.java:47-54 | A replayed balance is the left fold of the rows' effects over the opening balance. |
| Store.LatestTransactionCarriesBalance | src/main/java/com/eaglebank/eagle_bank_api/service/TransactionService.java:57-66 | Under the invariant, an account with transactions has the balance-after of its latest one as its balance. |
| Store.BalanceIsFoldOfHistory | src/main/java/com/eaglebank/eagle_bank_api/service/TransactionService.java:47-54 | Under the invariant, an account's balance is its opening balance with its history applied in order. |
| Store.InsertUserKeepsInvariant | src/main/java/com/eaglebank/eagle_bank_api/service/UserService.java:28-41 | Inserting a user under the next id with an unused email keeps the invariant. |
| Store.SaveUserKeepsInvariant | src/main/java/com/eaglebank/eagle_bank_api/service/UserService.java:73-87 | Saving a user back with the same email, or with one nobody holds, keeps the invariant. |
| Store.RemoveUserKeepsInvariant | src/main/java/com/eaglebank/eagle_bank_api/service/UserService.java:100-105 | Removing a user who owns no account keeps the invariant. |
| Store.InsertAccountKeepsInvariant | src/main/java/com/eaglebank/eagle_bank_api/service/BankAccountService.java:37-44 | Inserting an account under the next id, owned by a stored user, with a non-negative balance and an unused number, keeps the invariant; its empty history replays to its opening balance. |
| Store.SaveAccountKeepsInvariant | src/main/java/com/eaglebank/eagle_bank_api/service/BankAccountService.java:76-84 | Saving an account back with balance, number and owner unchanged keeps the invariant. |
| Store.RemoveAccountKeepsInvariant | src/main/java/com/eaglebank/eagle_bank_api/service/BankAccountService.java:97 | Removing an account together with its history keeps the invariant. |
| Store.PostKeepsRowsWellFormed | src/main/java/com/eaglebank/eagle_bank_api/entity/Transaction.java:40-48 | A posted row to a stored account, with the next id and a non-negative balance, keeps every row well formed. |
| Store.PostKeepsLedger | src/main/java/com/eaglebank/eagle_bank_api/service/TransactionService.java:57-70 | A posted row whose balance-after becomes the account's balance keeps every history replaying to its balance. |
| Store.IdsIncreasingByPosition | src/main/java/com/eaglebank/eagle_bank_api/entity/Transaction.java:24-26 | When ids increase, a row saved earlier has a smaller id than any row saved later, so no two rows share an id. |
| Store.AppendKeepsIdsIncreasing | src/main/java/com/eaglebank/eagle_bank_api/entity/Transaction.java:24-26 | Appending a row whose id is above every saved row's keeps the ids increasing. |
| Store.PostKeepsIdsIncreasing | src/main/java/com/eaglebank/eagle_bank_api/entity/Transaction.java:24-26 | A row saved under the next identity value comes after every saved row, so ids keep increasing. |
| Store.PurgeKeepsIdsIncreasing | src/main/java/com/eaglebank/eagle_bank_api/entity/BankAccount.java:60-61 | The cascade keeps the surviving rows in order, so their ids keep increasing. |
| Store.PostKeepsInvariant | src/main/java/com/eaglebank/eagle_bank_api/service/TransactionService.java:57-70 | Posting a row under the next id, with the account's new balance as its balance-after, keeps the whole invariant. |
| Store.Database.constructor | src/main/java/com/eaglebank/eagle_bank_api/repository/UserRepository.java:13 | The empty tables satisfy the invariant. |
| Store.Database.InsertUser | src/main/java/com/eaglebank/eagle_bank_api/service/UserService.java:41 | save of a new user adds exactly one row, under the next id. |
| Store.Database.SaveUser | src/main/java/com/eaglebank/eagle_bank_api/service/UserService.java:87 | save of a stored user replaces exactly its row. |
| Store.Database.RemoveUser | src/main/java/com/eaglebank/eagle_bank_api/service/UserService.java:105 | delete removes exactly that user. |
| Store.Database.InsertAccount | src/main/java/com/eaglebank/eagle_bank_api/service/BankAccountService.java:44 | The pre-persist hook runs. The insert fails, storing nothing, exactly when the number is already stored. Otherwise exactly one row is added under the next id, and it is the object's row. |
| Store.Database.SaveAccount | src/main/java/com/eaglebank/eagle_bank_api/service/BankAccountService.java:84 | save of a stored account replaces exactly its row. |
| Store.Database.RemoveAccount | src/main/java/com/eaglebank/eagle_bank_api/repository/BankAccountRepository.java:12 | delete removes the account and, by the cascade, exactly its rows. |
| Store.Database.InsertTransaction | src/main/java/com/eaglebank/eagle_bank_api/repository/TransactionRepository.java:11 | save of a new transaction dates it by the clock and appends exactly one row, under the next id, leaving the existing rows unchanged. |
| Authentication.PreHandle | src/main/java/com/eaglebank/eagle_bank_api/config/AuthenticationInterceptor.java:14-43 | Exempt exactly for POST to a path ending "/v1/users" or "/v1/users/". Otherwise 401 exactly when the header is missing or all blank; 400 exactly when it is not blank but Long.parseLong rejects it; authenticated exactly when it parses. |
| Authentication.RegistrationPathMatchesPattern | src/main/java/com/eaglebank/eagle_bank_api/config/AuthenticationInterceptor.java:19 | The path test is the regular expression's match: any run of non-line-terminators, then the path with an optional slash, then the end. |
| Authentication.RegistrationExamples | src/test/java/com/eaglebank/eagle_bank_api/controller/UserControllerTest.java:103-107 | POST to "/v1/users" and "/api/v1/users/" is exempt. GET "/v1/users/1" and POST "/v1/users/1" without a header are 401. |
| Authentication.AccountsPathNotExempt | src/main/java/com/eaglebank/eagle_bank_api/config/AuthenticationInterceptor.java:19 | "/v1/accounts" is not the registration path. |
| Authentication.BlankHeaderExample | src/main/java/com/eaglebank/eagle_bank_api/config/AuthenticationInterceptor.java:26-31 | A header of spaces is 401, not 400. |
| Authentication.LetterHeaderExample | src/main/java/com/eaglebank/eagle_bank_api/config/AuthenticationInterceptor.java:33-40 | "abc" is 400. |
| Authentication.PaddedHeaderExample | src/main/java/com/eaglebank/eagle_bank_api/config/AuthenticationInterceptor.java:33-40 | " 1 " passes the blank check but fails parsing: 400. |
| Authentication.NumericHeaderExample | src/main/java/com/eaglebank/eagle_bank_api/config/AuthenticationInterceptor.java:33-42 | "-42" is a valid id. |
| ExceptionHandler.Handle | src/main/java/com/eaglebank/eagle_bank_api/exception/GlobalExceptionHandler.java:18-72 | The body's status equals the reply's. NotFound 404, Forbidden 403, Conflict 409, UnprocessableEntity 422, and IllegalArgument 400 each keep their message with no error list. A rejected body gives 400 "Validation failed" with the field messages in order. Anything else gives 500 with the fixed generic message. |
| ExceptionHandler.StatusIdentifiesKind | src/main/java/com/eaglebank/eagle_bank_api/exception/GlobalExceptionHandler.java:18-72 | Conversely, each status names its kind of exception. 400 names a rejected body or an IllegalArgumentException, and every status but 500 is a 4xx. |
| JavaText.NatToString | src/main/java/com/eaglebank/eagle_bank_api/entity/BankAccount.java:78 | Decimal text: only digits, at least one, no leading zero, one digit exactly below 10. |
| JavaText.DigitsRoundTrip | src/main/java/com/eaglebank/eagle_bank_api/service/UserService.java:52 | Reading back a number's decimal text gives the number. |
| JavaText.NatToStringInjective | src/main/java/com/eaglebank/eagle_bank_api/entity/BankAccount.java:78 | Different numbers have different decimal texts. |
| JavaText.ParseLong | src/main/java/com/eaglebank/eagle_bank_api/config/AuthenticationInterceptor.java:33-35 | An accepted string is an optional sign followed by one or more digits. Its value is the signed value of those digits and lies in the signed 64-bit range. |
| JavaText.ParseLongAccepts | src/main/java/com/eaglebank/eagle_bank_api/config/AuthenticationInterceptor.java:33-35 | Conversely, any optional '+' or '-' followed by one or more digits with an in-range value is accepted with that value, including forms such as "+7" and "007". |
| JavaText.LongRoundTrip | src/main/java/com/eaglebank/eagle_bank_api/config/AuthenticationInterceptor.java:33-42 | Every 64-bit value's decimal text parses back to it. |
| JavaText.TrimStart | src/main/java/com/eaglebank/eagle_bank_api/config/AuthenticationInterceptor.java:26 | A suffix of the input. Only characters at or below U+0020 are removed, and it starts above U+0020 unless empty. |
| JavaText.TrimEnd | src/main/java/com/eaglebank/eagle_bank_api/config/AuthenticationInterceptor.java:26 | A prefix of the input. Only characters at or below U+0020 are removed, and it ends above U+0020 unless empty. |
| JavaText.TrimEmptyIffBlank | src/main/java/com/eaglebank/eagle_bank_api/config/AuthenticationInterceptor.java:26 | The trimmed header is empty exactly when every character is at or below U+0020. |
| JavaText.ParsableIsNotBlank | src/main/java/com/eaglebank/eagle_bank_api/config/AuthenticationInterceptor.java:26-40 | A parsable header is never blank, so the 401 and the pass cases are disjoint. |
| JavaText.IgnoreCaseAgainstUpperAscii | src/main/java/com/eaglebank/eagle_bank_api/enums/TransactionType.java:19 | Against an upper-case ASCII letter, the ignore-case test accepts the letter, its lower case, and the dotless i, dotted I, long s or Kelvin sign where Java folds them onto it. |
| JavaText.MoneyString | src/main/java/com/eaglebank/eagle_bank_api/service/TransactionService.java:51 | A scale-2 amount's text ends in a point and two digits. |
| JavaText.MoneyStringValue | src/main/java/com/eaglebank/eagle_bank_api/service/TransactionService.java:51 | The text denotes the amount. It starts with a minus sign exactly when the amount is negative, its whole-units digits read back as the magnitude divided by 100, and its two digits after the point read back as the remainder. |
| JavaText.MoneyStringInjective | src/main/java/com/eaglebank/eagle_bank_api/service/TransactionService.java:51 | Different amounts never share a text, so the refusal message identifies the balance. |

## Left out

- Controllers, request and response DTOs and the convertTo helpers are left out. They only route and copy fields. The account and transaction rows the model returns carry every field their responses copy. The user response also copies the user's creation and update times, which the model's user row does not have (see the User entity below).
- The timestamp in the error body comes from the clock and is not modelled.
- Bean validation runs in the validation library, which is outside this model. Its effect on request bodies is taken as preconditions: `BankAccountService.CreateBankAccount` requires a non-negative initial balance and `TransactionService.CreateTransaction` a non-negative amount. Name lengths and email shape are not checked.
- Validation of the entities at flush is not modelled. For the Transaction entity this is an amount of at least 0.01. A zero-amount posting therefore succeeds in the model, as it does in the service itself (`TransactionService.PostedRowMeetsConstraints` states which rows the declared constraints admit).
- Transaction boundaries, isolation and concurrent requests are left out. Each service call is one atomic step, and a refused call leaves all tables unchanged. For example, the names that updateUser sets before its email Conflict are rolled back.
- Clock readings are parameters, and reads that happen within one service call are merged into one reading `now`.
  - The two reads in the account's pre-persist hook are one reading, so created and updated times are equal at creation.
  - In createTransaction, the transaction's pre-persist hook (Transaction.java lines 50-53) and the account's pre-update hook at flush (BankAccount.java lines 72-75) read the clock separately. `TransactionService.CreateTransaction` and `TransactionService.Persist` give the transaction date and the account's new update time the same `now`.
- BankAccounts.Draw: `Math.random() * 1000` is computed in double precision and then truncated. The model uses exact reals and the floor. The result is in 0..999 either way. When the exact product lies just below an integer, the rounded double product can reach that integer while the exact floor stays one lower. That rounding is not modelled, so the model may pick the neighbouring draw for such a value.
- BigDecimal is a count of cents. Amounts with more than two decimals, other scales, and the 19-digit column precision are not modelled.
- Ids are unbounded integers. Overflow of the 64-bit identity columns is not modelled, and neither is an identity value consumed by an insert that fails.
- The User entity is not part of this model. User timestamps and any column constraints it declares are unknown. Emails compare exactly, with no database collation.
- JavaText.ParseLong: accepts ASCII digits only. Long.parseLong also accepts digits of other Unicode scripts, which the model rejects (400 instead of a pass for such a header).
- JavaText.UpperCase and JavaText.LowerCase model only the characters whose case mapping reaches an ASCII letter. That is all that matters when comparing against the two ASCII type names.
- Repositories.FindByEmail: when several users share an email the derived query throws. The model picks one of them instead. Under the invariant emails are unique, so this case never arises in the model's store.
- Repositories.SortByDateDesc: rows with equal dates come in an order the store chooses. The model fixes one such order, but its contracts claim only newest-first order and a permutation.
- Repositories.FindByUserUserId returns a set. The source's list has no specified order.
- getBankAccountById (BankAccountService.java lines 55-65) has no member of its own. It is the same lookup and ownership check, with the same messages, as `BankAccountService.FindByIdAndValidateOwnership` with the `Access` action, and returns the account it finds.
- Lazy loading and the object links between entities are replaced by id references.
- The interceptor's writing of the JSON reply is output. Only its verdict is modelled.
- The cause text of an `Internal` failure is never shown to the client (`ExceptionHandler.Handle` replaces it with the generic message). Its wording in the model is arbitrary.
